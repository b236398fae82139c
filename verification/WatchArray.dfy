/** The array of watched system calls and the breakpoint table that indexes it. */
module WatchArray {
  import opened Tracee
  import opened Breakpoints
  import opened Commands
  import opened OneShot

  ghost predicate Numbered(bps: seq<Bp>) {
    forall i :: 0 <= i < |bps| ==> bps[i].id == i + 1
  }

  /** Ids are positions plus one; each system call breakpoint owns one entry of the array, which
      holds its number, or -1 once it is deleted; every entry has an owner. */
  ghost predicate Agrees(d: Dbg) {
    && Numbered(d.bps)
    && (forall i :: 0 <= i < |d.bps| && d.bps[i].syscall ==> Holds(d.watch, d.bps[i]))
    && (forall i, j :: 0 <= i < j < |d.bps| && d.bps[i].syscall && d.bps[j].syscall ==> d.bps[i].word != d.bps[j].word)
    && (forall w :: 0 <= w < |d.watch| ==> Owned(d.bps, w))
  }

  predicate Holds(watch: seq<int>, bp: Bp) {
    bp.word < |watch| && watch[bp.word] == if bp.deleted then -1 else bp.addr
  }

  predicate Owns(bp: Bp, w: int) {
    bp.syscall && bp.word == w
  }

  ghost predicate Owned(bps: seq<Bp>, w: int) {
    exists i :: 0 <= i < |bps| && Owns(bps[i], w)
  }

  predicate Watches(bp: Bp, n: int) {
    bp.syscall && !bp.deleted && bp.addr == n
  }

  /** A system call is watched exactly if a breakpoint on it has not been deleted. */
  lemma InSyscallsIff(d: Dbg, n: int)
    requires Agrees(d)
    ensures InSyscalls(d.watch, n) <==> n != -1 && exists i :: 0 <= i < |d.bps| && Watches(d.bps[i], n)
  {
    if InSyscalls(d.watch, n) {
      var w :| 0 <= w < |d.watch| && d.watch[w] == n;
      assert Owned(d.bps, w);
      var i :| 0 <= i < |d.bps| && Owns(d.bps[i], w);
      assert Holds(d.watch, d.bps[i]);
      assert Watches(d.bps[i], n);
    }
    if n != -1 && exists i :: 0 <= i < |d.bps| && Watches(d.bps[i], n) {
      var i :| 0 <= i < |d.bps| && Watches(d.bps[i], n);
      assert Holds(d.watch, d.bps[i]);
    }
  }

  /** Deleting marks the breakpoint with that id and no other, and is refused exactly if there is none or
      it has been deleted before. */
  lemma DeletesById(d: Dbg, id: nat)
    requires Numbered(d.bps)
    ensures BreakDel(d, id).Refused? <==> forall i :: 0 <= i < |d.bps| && d.bps[i].id == id ==> d.bps[i].deleted
    ensures var r := BreakDel(d, id);
            !r.Refused? ==>
              && |r.dbg.bps| == |d.bps|
              && forall i :: 0 <= i < |d.bps| ==>
                               r.dbg.bps[i] == if d.bps[i].id == id then d.bps[i].(deleted := true) else d.bps[i]
  {
    if 0 < id <= |d.bps| { assert d.bps[id - 1].id == id; }
  }

  /** Adding a breakpoint on a system call has that one watched too, and no other. */
  lemma AddWatches(d: Dbg, syscall: int, n: int)
    ensures var d' := AddSyscallBreak(d, syscall);
            && (InSyscalls(d'.watch, n) <==> InSyscalls(d.watch, n) || n == syscall != -1)
            && |d'.bps| == |d.bps| + 1 && d'.bps[..|d.bps|] == d.bps && d'.proc == d.proc
            && var bp := d'.bps[|d.bps|];
               bp.id == |d'.bps| && Watches(bp, syscall) && bp.enabled && !bp.temp && !bp.hidden
  {
  }

  /** Deleting a breakpoint on a system call leaves watched what the others are for. */
  lemma DeleteWatches(d: Dbg, id: nat, n: int)
    requires Agrees(d) && 0 < id <= |d.bps| && d.bps[id - 1].syscall && !d.bps[id - 1].deleted
    ensures var d' := BreakDel(d, id).dbg;
            InSyscalls(d'.watch, n) <==> n != -1 && exists i :: 0 <= i < |d.bps| && i != id - 1 && Watches(d.bps[i], n)
  {
    DeleteOverrunsIff(d, id);
    DeleteAgreesIff(d, id);
    var d' := BreakDel(d, id).dbg;
    InSyscallsIff(d', n);
    assert forall i :: 0 <= i < |d.bps| && i != id - 1 ==> d'.bps[i] == d.bps[i];
  }

  /** Deleting keeps table and array in agreement exactly when the breakpoint is one on a system
      call, or its first code bytes, taken for an index, happen to hit a deleted entry. */
  lemma DeleteAgreesIff(d: Dbg, id: nat)
    requires Agrees(d) && BreakDel(d, id).Deleted?
    ensures Agrees(BreakDel(d, id).dbg) <==> d.bps[id - 1].syscall || d.watch[d.bps[id - 1].word] == -1
  {
    var d', bp := BreakDel(d, id).dbg, d.bps[id - 1];
    assert Owned(d.bps, bp.word);
    var i :| 0 <= i < |d.bps| && Owns(d.bps[i], bp.word);
    assert Holds(d.watch, d.bps[i]);
    assert d'.bps[i].syscall;
    if bp.syscall || d.watch[bp.word] == -1 {
      forall w | 0 <= w < |d'.watch| ensures Owned(d'.bps, w) {
        assert Owned(d.bps, w);
        var j :| 0 <= j < |d.bps| && Owns(d.bps[j], w);
        assert Owns(d'.bps[j], w);
      }
    } else {
      assert d'.bps[i] == d.bps[i];
      assert !Holds(d'.watch, d'.bps[i]);
    }
  }

  /** A deletion stores outside of the array exactly if the breakpoint is one on code, not deleted
      yet, whose first eight code bytes are no index; for one on a system call it never does. */
  lemma DeleteOverrunsIff(d: Dbg, id: nat)
    requires Agrees(d)
    ensures BreakDel(d, id).Overrun?
       <==> 0 < id <= |d.bps| && !d.bps[id - 1].deleted && !d.bps[id - 1].syscall && d.bps[id - 1].word >= |d.watch|
  {
    if 0 < id <= |d.bps| && d.bps[id - 1].syscall {
      assert Holds(d.watch, d.bps[id - 1]);
    }
  }

  lemma AddAgrees(d: Dbg, syscall: int)
    requires Agrees(d)
    ensures Agrees(AddSyscallBreak(d, syscall))
  {
    var d' := AddSyscallBreak(d, syscall);
    var n := |d.bps|;
    assert forall i :: 0 <= i < n ==> d'.bps[i] == d.bps[i];
    assert forall i :: 0 <= i < n && d.bps[i].syscall ==> Holds(d.watch, d.bps[i]);
    forall w | 0 <= w < |d'.watch| ensures Owned(d'.bps, w) {
      if w < |d.watch| {
        assert Owned(d.bps, w);
        var j :| 0 <= j < |d.bps| && Owns(d.bps[j], w);
        assert Owns(d'.bps[j], w);
      } else {
        assert Owns(d'.bps[n], w);
      }
    }
  }

  lemma SameFieldsAgrees(d: Dbg, d': Dbg)
    requires Agrees(d) && d'.watch == d.watch && |d'.bps| >= |d.bps|
    requires forall i :: 0 <= i < |d.bps| ==> Fades(d.bps[i], d'.bps[i])
    requires forall i :: |d.bps| <= i < |d'.bps| ==> !d'.bps[i].syscall && d'.bps[i].id == i + 1
    ensures Agrees(d')
  {
    forall i | 0 <= i < |d'.bps| && d'.bps[i].syscall ensures Holds(d'.watch, d'.bps[i]) {
      assert Holds(d.watch, d.bps[i]);
    }
    forall w | 0 <= w < |d'.watch| ensures Owned(d'.bps, w) {
      assert Owned(d.bps, w);
      var j :| 0 <= j < |d.bps| && Owns(d.bps[j], w);
      assert Owns(d'.bps[j], w);
    }
  }

  /** A session that deletes no breakpoints but those on system calls. */
  ghost predicate DeletesSyscalls(cpu: Cpu, d: Dbg, cmds: seq<Cmd>)
    requires d.signum < 128
    decreases |cmds|
  {
    cmds == [] || d.quit ||
    (&& (cmds[0].Delete? && 0 < cmds[0].id <= |d.bps| ==> d.bps[cmds[0].id - 1].syscall)
     && (!Overruns(d, cmds[0]) ==> DeletesSyscalls(cpu, Apply(cpu, d, cmds[0]), cmds[1..])))
  }

  lemma {:induction false} SessionAgrees(cpu: Cpu, d: Dbg, cmds: seq<Cmd>)
    requires d.signum < 128 && Agrees(d) && DeletesSyscalls(cpu, d, cmds)
    ensures Agrees(Session(cpu, d, cmds))
    decreases |cmds|
  {
    hide SingleStep, ContinueExecution, PlacedMemory;
    if cmds != [] && !d.quit {
      var d1 := Apply(cpu, d, cmds[0]);
      match cmds[0] {
        case StepInstr => StepEvolves(cpu, d); SameFieldsAgrees(d, d1);
        case Continue => ContinueEvolves(cpu, d); SameFieldsAgrees(d, d1);
        case Place(addr, temp, hidden) => SameFieldsAgrees(d, d1);
        case Watch(syscall) => AddAgrees(d, syscall);
        case Delete(id) =>
          if !BreakDel(d, id).Refused? {
            DeleteOverrunsIff(d, id);
            DeleteAgreesIff(d, id);
          }
      }
      SessionAgrees(cpu, d1, cmds[1..]);
    }
  }
}
