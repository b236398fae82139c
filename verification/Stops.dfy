/** What a single step does, and which temporary breakpoints it uses up. */
module Stops {
  import opened Tracee
  import opened Breakpoints
  import opened Commands
  import opened Transparency
  import OneShot

  // ---- Temporary breakpoints ----

  /** The table without the temporary breakpoint at an address. */
  function TakenOut(bps: seq<Bp>, addr: int): seq<Bp> {
    var i := GetBreakpoint(bps, addr);
    if i != -1 && bps[i].temp then bps[i := bps[i].(enabled := false)] else bps
  }

  function TableOnLeaving(d: Dbg): seq<Bp> {
    TakenOut(d.bps, d.proc.regs.rip)
  }

  lemma WaitUnfolds(cpu: Cpu, d: Dbg, step: bool)
    requires d.signum == 0 && d.events != []
    ensures var (d1, stop) := Awaited(cpu, d);
            var h := Handle(d1, stop, step, d.proc.regs.inSyscall);
            var r := ContinueExecution(cpu, h.dbg);
            WaitProgram(cpu, d, step)
            == if h.again then Result(r.dbg, false, r.threw) else Result(h.dbg, h.value, false)
  {
    hide KernelRun, Handle, ContinueExecution;
  }

  lemma SteppedWait(cpu: Cpu, d: Dbg)
    requires d.signum == 0 && d.events != []
    ensures var (d1, stop) := Awaited(cpu, d);
            var h := Handle(d1, stop, true, d.proc.regs.inSyscall);
            !h.again && WaitProgram(cpu, d, true) == Result(h.dbg, h.value, false)
  {
  }

  lemma RestoredEntry(d: Dbg, r: Result, i: nat)
    requires |r.dbg.bps| == |d.bps| && i < |d.bps| && !r.threw
    requires !Restored(r, GetBreakpoint(d.bps, d.proc.regs.rip)).threw
    requires var bp := GetBreakpoint(d.bps, d.proc.regs.rip); bp != -1 ==> r.dbg.bps[bp] == d.bps[bp].(enabled := false)
    ensures var r' := Restored(r, GetBreakpoint(d.bps, d.proc.regs.rip)).dbg;
            var left := GetBreakpoint(d.bps, d.proc.regs.rip) == i;
            && r'.proc.regs == r.dbg.proc.regs
            && r'.bps[i] == if left && !d.bps[i].temp then d.bps[i] else r.dbg.bps[i]
  {
    hide ToggledMemory;
  }

  /** A step that runs to its end uses up exactly the temporary breakpoint that it leaves and the
      one that its stop is taken for a hit of; every other entry is as it was. */
  lemma StepTakesOutIff(cpu: Cpu, d: Dbg, i: nat)
    requires d.signum < 128 && i < |d.bps| && !SingleStep(cpu, d).threw
    ensures var r := SingleStep(cpu, d).dbg;
            && r.trace != []
            && var left := GetBreakpoint(d.bps, d.proc.regs.rip) == i;
            var hit := Rewinds(r.trace[|r.trace| - 1]) && GetBreakpoint(Lifted(d).bps, r.proc.regs.rip) == i;
            r.bps[i] == if d.bps[i].temp && (left || hit) then d.bps[i].(enabled := false) else d.bps[i]
  {
    hide ToggledMemory, KernelRun, Handle, WaitProgram;
    var d1 := Resume(cpu, Lifted(d), Single);
    var bp := GetBreakpoint(d.bps, d.proc.regs.rip);
    SteppedWait(cpu, d1);
    var (d2, stop) := Awaited(cpu, d1);
    var h := Handle(d2, stop, true, d1.proc.regs.inSyscall).dbg;
    HandleMoves(d2, stop, true, d1.proc.regs.inSyscall);
    RewindsTo(d2, stop, true, d1.proc.regs.inSyscall);
    HitTakesOutIff(d2, stop, true, d1.proc.regs.inSyscall, i);
    if bp != -1 {
      HitTakesOutIff(d2, stop, true, d1.proc.regs.inSyscall, bp);
      assert Lifted(d).bps[bp] == d.bps[bp].(enabled := false);
    }
    RestoredEntry(d, WaitProgram(cpu, d1, true), i);
  }

  lemma RewindsTo(d: Dbg, stop: Stop, step: bool, fromSyscall: bool)
    requires d.signum == 0
    ensures var h := Handle(d, stop, step, fromSyscall).dbg;
            Rewinds(h.trace[|d.trace|]) ==> h.proc.regs.rip == d.proc.regs.rip - 1
  {
    hide ToggledMemory;
  }

  // ---- Placing and hitting ----

  /** What is placed is what was asked for, and nothing else changes in the table. */
  lemma PlacedEntry(d: Dbg, addr: int, temp: bool, hidden: bool)
    ensures var bps := PlaceBreakpoint(d, addr, temp, hidden).bps;
            && |bps| == |d.bps| + 1 && bps[..|d.bps|] == d.bps
            && var bp := bps[|d.bps|];
               && bp.id == |bps| && LiveAt(bp, addr) && bp.temp == temp && bp.hidden == hidden
               && bp.word == Peek(d.proc.mem, addr, 8)
  {
    hide Poke, Peek;
  }

  /** Entry `i` is the only one that can be hit at `addr`. */
  ghost predicate Sole(bps: seq<Bp>, i: nat, addr: int) {
    && i < |bps| && bps[i].addr == addr && !bps[i].syscall && !bps[i].deleted
    && forall j :: 0 <= j < |bps| && j != i ==> !LiveAt(bps[j], addr)
  }

  /** The last stop was taken for a hit at `addr`. */
  predicate HitAt(t: seq<Note>, addr: int) {
    t != [] && Rewinds(t[|t| - 1]) && t[|t| - 1].regs.rip - 1 == addr
  }

  /** A hit at `addr` since `d`, if it is the last thing that has happened, was one of entry `i`, which is
      still live exactly if it is permanent. */
  ghost predicate HitOf(d: Dbg, d': Dbg, i: nat, addr: int)
    requires i < |d.bps|
  {
    |d'.trace| > |d.trace| && HitAt(d'.trace, addr) ==>
      Live(d.bps[i]) && (IsBreakpoint(d'.bps, addr) <==> !d.bps[i].temp)
  }

  ghost predicate TableFades(bps: seq<Bp>, bps': seq<Bp>) {
    |bps'| == |bps| && forall j :: 0 <= j < |bps| ==> OneShot.Fades(bps[j], bps'[j])
  }

  lemma FadesSole(bps: seq<Bp>, bps': seq<Bp>, i: nat, addr: int)
    requires Sole(bps, i, addr) && TableFades(bps, bps')
    ensures Sole(bps', i, addr) && bps'[i].temp == bps[i].temp && (Live(bps'[i]) ==> Live(bps[i]))
    ensures IsBreakpoint(bps', addr) <==> Live(bps'[i])
  {
    if Live(bps'[i]) { assert LiveAt(bps'[i], addr); }
  }

  /** A wait that goes on after something that was no hit. */
  lemma HitLater(d: Dbg, mid: Dbg, d': Dbg, i: nat, addr: int)
    requires Sole(d.bps, i, addr) && TableFades(d.bps, mid.bps) && HitOf(mid, d', i, addr)
    requires Extends(mid.trace, d'.trace) && !(|mid.trace| > |d.trace| && HitAt(mid.trace, addr))
    requires Extends(d.trace, mid.trace)
    ensures HitOf(d, d', i, addr)
  {
    hide Rewinds, IsBreakpoint;
    FadesSole(d.bps, mid.bps, i, addr);
    if |d'.trace| == |mid.trace| { assert d'.trace == mid.trace; }
  }

  lemma HandleHits(d: Dbg, stop: Stop, step: bool, fromSyscall: bool, i: nat, addr: int)
    requires d.signum == 0 && Sole(d.bps, i, addr)
    ensures var h := Handle(d, stop, step, fromSyscall);
            && TableFades(d.bps, h.dbg.bps) && HitOf(d, h.dbg, i, addr)
            && (h.again || h.value ==> !HitAt(h.dbg.trace, addr))
  {
    hide ToggledMemory, ToInt;
    HandleMoves(d, stop, step, fromSyscall);
    OneShot.HandleEvolves(d, stop, step, fromSyscall);
    HitTakesOutIff(d, stop, step, fromSyscall, i);
    FadesSole(d.bps, Handle(d, stop, step, fromSyscall).dbg.bps, i, addr);
  }

  lemma {:induction false} WaitHits(cpu: Cpu, d: Dbg, step: bool, i: nat, addr: int)
    requires d.signum == 0 && Sole(d.bps, i, addr)
    ensures var r := WaitProgram(cpu, d, step);
            && TableFades(d.bps, r.dbg.bps) && HitOf(d, r.dbg, i, addr) && (r.value ==> !HitAt(r.dbg.trace, addr))
    decreases |d.events|, 0
  {
    hide Handle, KernelRun, HitAt, IsBreakpoint, ContinueExecution;
    OneShot.WaitEvolves(cpu, d, step);
    if d.events != [] {
      WaitUnfolds(cpu, d, step);
      var (d1, stop) := Awaited(cpu, d);
      HandleHits(d1, stop, step, d.proc.regs.inSyscall, i, addr);
      var h := Handle(d1, stop, step, d.proc.regs.inSyscall);
      if h.again {
        FadesSole(d1.bps, h.dbg.bps, i, addr);
        ContinueHits(cpu, h.dbg, i, addr);
        HitLater(d, h.dbg, ContinueExecution(cpu, h.dbg).dbg, i, addr);
      }
    }
  }

  lemma ResumeHits(cpu: Cpu, d: Dbg, mode: Mode, addr: int)
    requires d.signum < 128
    ensures var d1 := Resume(cpu, d, mode);
            d1.bps == d.bps && d1.signum == 0 && !(|d1.trace| > |d.trace| && HitAt(d1.trace, addr))
  {
  }

  /** While a step leaves entry `i` it is out, and is not hit. */
  lemma RestoredHits(d: Dbg, r: Result, i: nat, addr: int)
    requires Sole(d.bps, i, addr) && TableFades(Lifted(d).bps, r.dbg.bps) && HitOf(Lifted(d), r.dbg, i, addr)
    ensures HitOf(d, Restored(r, GetBreakpoint(d.bps, d.proc.regs.rip)).dbg, i, addr)
  {
    hide ToggledMemory, HitAt;
    var bp := GetBreakpoint(d.bps, d.proc.regs.rip);
    if |r.dbg.trace| > |d.trace| && HitAt(r.dbg.trace, addr) && bp != -1 {
      assert bp != i && LiveAt(d.bps[bp], d.proc.regs.rip);
      assert OneShot.Fades(Lifted(d).bps[bp], r.dbg.bps[bp]);
      var bps' := Restored(r, bp).dbg.bps;
      SameAt(r.dbg.bps, bps', bp, addr);
    }
  }

  lemma SameAt(bps: seq<Bp>, bps': seq<Bp>, k: nat, addr: int)
    requires |bps'| == |bps| && k < |bps| && bps[k].addr != addr && bps'[k].addr != addr
    requires forall j :: 0 <= j < |bps| && j != k ==> bps'[j] == bps[j]
    ensures GetBreakpoint(bps', addr) == GetBreakpoint(bps, addr)
  {
    assert forall j :: 0 <= j < |bps| ==> (LiveAt(bps[j], addr) <==> LiveAt(bps'[j], addr));
  }

  lemma {:induction false} StepHits(cpu: Cpu, d: Dbg, i: nat, addr: int)
    requires d.signum < 128 && Sole(d.bps, i, addr)
    ensures var r := SingleStep(cpu, d);
            && TableFades(d.bps, r.dbg.bps) && HitOf(d, r.dbg, i, addr) && (r.value ==> !HitAt(r.dbg.trace, addr))
    decreases |d.events|, 1
  {
    hide WaitProgram, HitAt, ToggledMemory, Resume, HitOf;
    OneShot.StepEvolves(cpu, d);
    var d1 := Resume(cpu, Lifted(d), Single);
    assert TableFades(d.bps, Lifted(d).bps);
    FadesSole(d.bps, Lifted(d).bps, i, addr);
    ResumeHits(cpu, Lifted(d), Single, addr);
    WaitHits(cpu, d1, true, i, addr);
    var r := WaitProgram(cpu, d1, true);
    HitLater(Lifted(d), d1, r.dbg, i, addr);
    RestoredHits(d, r, i, addr);
  }

  lemma {:induction false} ContinueHits(cpu: Cpu, d: Dbg, i: nat, addr: int)
    requires d.signum < 128 && Sole(d.bps, i, addr)
    ensures var r := ContinueExecution(cpu, d); TableFades(d.bps, r.dbg.bps) && HitOf(d, r.dbg, i, addr)
    decreases |d.events|, 2
  {
    hide WaitProgram, SingleStep, HitAt, Resume, HitOf, Sole, GetBreakpoint;
    OneShot.ContinueEvolves(cpu, d);
    var mode := if d.watch != [] then Sysc else Cont;
    if IsBreakpoint(d.bps, d.proc.regs.rip) {
      StepHits(cpu, d, i, addr);
      var r := SingleStep(cpu, d);
      if r.value {
        FadesSole(d.bps, r.dbg.bps, i, addr);
        ResumedHits(cpu, r.dbg, mode, i, addr);
        HitLater(d, r.dbg, WaitProgram(cpu, Resume(cpu, r.dbg, mode), false).dbg, i, addr);
      }
    } else {
      ResumedHits(cpu, d, mode, i, addr);
    }
  }

  lemma {:induction false} ResumedHits(cpu: Cpu, d: Dbg, mode: Mode, i: nat, addr: int)
    requires d.signum < 128 && Sole(d.bps, i, addr)
    ensures HitOf(d, WaitProgram(cpu, Resume(cpu, d, mode), false).dbg, i, addr)
    decreases |d.events|, 1
  {
    hide WaitProgram, HitAt, Resume, HitOf, Sole;
    ResumeHits(cpu, d, mode, addr);
    WaitHits(cpu, Resume(cpu, d, mode), false, i, addr);
    HitLater(d, Resume(cpu, d, mode), WaitProgram(cpu, Resume(cpu, d, mode), false).dbg, i, addr);
  }

  /** After placing and continuing to a hit there, a breakpoint is live at the address exactly if it was not
      placed as a temporary one, shown to the user or not. */
  lemma PlacedHitIff(cpu: Cpu, d: Dbg, addr: int, temp: bool, hidden: bool)
    requires d.signum < 128 && !d.quit && !IsBreakpoint(d.bps, addr)
    ensures var d' := Session(cpu, d, [Place(addr, temp, hidden), Continue]);
            |d'.trace| > |d.trace| && HitAt(d'.trace, addr) ==> (IsBreakpoint(d'.bps, addr) <==> !temp)
  {
    hide PlacedMemory, ContinueExecution, HitAt;
    var cmds := [Place(addr, temp, hidden), Continue];
    var d1 := PlaceBreakpoint(d, addr, temp, hidden);
    assert cmds[1..] == [Continue] && [Continue][1..] == [];
    assert Session(cpu, d1, [Continue]) == ContinueExecution(cpu, d1).dbg;
    PlacedEntry(d, addr, temp, hidden);
    assert Sole(d1.bps, |d.bps|, addr) by {
      hide Peek;
      assert forall j :: 0 <= j < |d.bps| ==> d1.bps[j] == d.bps[j];
    }
    ContinueHits(cpu, d1, |d.bps|, addr);
  }

  // ---- Stepping ----

  /** Nobody sends the process a signal. */
  ghost predicate NoSignals(events: seq<Event>) {
    forall i :: 0 <= i < |events| ==> !events[i].async.Signal?
  }

  /** A SIGTRAP is sent before the process has run at all: a step takes it for its own end. */
  predicate TooEarly(events: seq<Event>, n: Proc) {
    events != [] && events[0] == Event(0, Signal(SIGTRAP)) && !n.regs.inSyscall
  }

  datatype Spot = Spot(n: Proc, bps: seq<Bp>, signum: nat)

  ghost predicate AtSpot(d: Dbg, spot: Spot) {
    d.bps == spot.bps && d.signum == spot.signum && Linked(d.bps, d.proc, spot.n)
  }

  /** Where a signal leaves the program and the debugger; with `hit` it is taken for a breakpoint hit. */
  function SignalSpot(bps: seq<Bp>, n: Proc, sig: Signo, hit: bool): Spot {
    if hit then Spot(Back(n), TakenOut(bps, n.regs.rip - 1), if sig == SIGTRAP then 0 else sig)
    else Spot(n, bps, sig)
  }

  lemma SignalOutcome(d: Dbg, sig: Signo, step: bool, fromSyscall: bool)
    requires d.signum == 0 && (step ==> sig != SIGTRAP)
    ensures var h := Handle(d, External(sig), step, fromSyscall);
            var hit := IsBreakpoint(d.bps, d.proc.regs.rip - 1);
            && !h.value && !h.again && h.dbg.quit == d.quit && h.dbg.entry == d.entry
            && h.dbg.signum == if hit && sig == SIGTRAP then 0 else sig
  {
    hide AtBreakpoint, InSyscalls;
  }

  lemma HandleSignal(d: Dbg, sig: Signo, step: bool, fromSyscall: bool, n: Proc)
    requires d.signum == 0 && Linked(d.bps, d.proc, n) && (step ==> sig != SIGTRAP)
    ensures var h := Handle(d, External(sig), step, fromSyscall);
            && !h.value && !h.again && h.dbg.quit == d.quit && h.dbg.entry == d.entry
            && AtSpot(h.dbg, SignalSpot(d.bps, n, sig, IsBreakpoint(d.bps, n.regs.rip - 1)))
  {
    hide Handle, ToggledMemory, Patched;
    SignalOutcome(d, sig, step, fromSyscall);
    HandleMoves(d, External(sig), step, fromSyscall);
    var bp := GetBreakpoint(d.bps, d.proc.regs.rip - 1);
    if bp != -1 {
      AtBreakpointPatched(d.bps, d.proc, bp, n);
    }
  }

  /** The process before or after its next instruction. */
  function Ran(cpu: Cpu, p: Proc, done: bool): Proc {
    if done then Instr(cpu, p) else p
  }

  lemma AtInt3Instr(cpu: Cpu, p: Proc)
    requires AtInt3(p)
    ensures Instr(cpu, p) == Exec(cpu, Step, p)
  {
  }

  /** Off the breakpoint, a single step is one instruction, an int3 of the program's own included,
      unless the process ends or is interrupted before. */
  lemma SingleAwaited(cpu: Cpu, d: Dbg) returns (done: bool)
    requires d.mode == Single && d.events != []
    ensures var (d1, stop) := Awaited(cpu, d);
            && d1 == d.(proc := Ran(cpu, d.proc, done), events := d.events[1..])
            && (stop in {Break, Stepped} || stop == Happened(d.events[0].async))
            && (stop in {Break, Stepped, External(SIGTRAP)} ==> done || TooEarly(d.events, d.proc))
            && (done ==> !TooEarly(d.events, d.proc))
  {
    hide Instr, Exec;
    var ev := d.events[0];
    done := ev.budget > 0 || (d.proc.regs.inSyscall && ev.async.Signal?);
    if AtInt3(d.proc) {
      AtInt3Instr(cpu, d.proc);
    }
  }

  /** The end of a step as the debugger sees it. */
  lemma HandleStepped(d: Dbg, stop: Stop, fromSyscall: bool)
    requires d.signum == 0 && (stop in {Break, Stepped, External(SIGTRAP), Ended})
    ensures var h := Handle(d, stop, true, fromSyscall);
            h.dbg == d.(quit := h.dbg.quit, trace := h.dbg.trace)
            && (if stop == Ended then h.dbg.quit && !h.value else h.dbg.quit == d.quit && h.value)
  {
    hide GetBreakpoint;
  }

  // ---- The table after a step ----

  /** Away from RIP, the table during a step has the breakpoints that it has after it. */
  lemma SameElsewhere(d: Dbg, addr: int)
    requires addr != d.proc.regs.rip
    ensures GetBreakpoint(Lifted(d).bps, addr) == GetBreakpoint(TableOnLeaving(d), addr)
  {
    var during, after := Lifted(d).bps, TableOnLeaving(d);
    assert forall i :: 0 <= i < |during| ==> (LiveAt(during[i], addr) <==> LiveAt(after[i], addr));
  }

  lemma RestoredTable(d: Dbg, r: Result)
    requires r.dbg.bps == Lifted(d).bps && !r.threw
    ensures var r' := Restored(r, GetBreakpoint(d.bps, d.proc.regs.rip)); r'.threw || r'.dbg.bps == TableOnLeaving(d)
  {
    var bp := GetBreakpoint(d.bps, d.proc.regs.rip);
    if bp != -1 && !d.bps[bp].temp {
      assert d.bps[bp := ToggledBp(d.bps[bp])][bp := d.bps[bp]] == d.bps;
    }
  }

  /** Taking one breakpoint out and putting another one back can be done in either order. */
  lemma TakenSwap(bps: seq<Bp>, i: nat, put: Bp, addr: int)
    requires i < |bps| && put.addr == bps[i].addr && put.addr != addr
    ensures TakenOut(bps, addr)[i := put] == TakenOut(bps[i := put], addr)
    ensures |TakenOut(bps, addr)| == |bps| && TakenOut(bps, addr)[i] == bps[i]
  {
    var bps' := bps[i := put];
    assert forall j :: 0 <= j < |bps| ==> (LiveAt(bps[j], addr) <==> LiveAt(bps'[j], addr));
    assert GetBreakpoint(bps, addr) == GetBreakpoint(bps', addr);
  }

  lemma RestoredTaken(d: Dbg, r: Result, addr: int)
    requires addr != d.proc.regs.rip && r.dbg.bps == TakenOut(Lifted(d).bps, addr) && !r.threw && !r.dbg.quit
    ensures var r' := Restored(r, GetBreakpoint(d.bps, d.proc.regs.rip));
            !r'.threw && r'.dbg.bps == TakenOut(TableOnLeaving(d), addr)
  {
    hide ToggledMemory;
    var bp := GetBreakpoint(d.bps, d.proc.regs.rip);
    if bp != -1 {
      var during := Lifted(d).bps;
      assert during == d.bps[bp := d.bps[bp].(enabled := false)];
      assert during[bp := d.bps[bp]] == d.bps;
      TakenSwap(during, bp, d.bps[bp], addr);
      hide TakenOut;
      var r' := Restored(r, bp);
      assert r'.dbg.bps == r.dbg.bps[bp := ToggledBp(during[bp])];
      if d.bps[bp].temp {
        assert r.dbg.bps[bp := during[bp]] == r.dbg.bps;
      }
    }
  }

  // ---- One step ----

  /** A signal that interrupts a step is taken for a breakpoint hit one byte after any breakpoint but
      the one that the step has left. */
  predicate StepHit(d: Dbg, m: Proc) {
    m.regs.rip - 1 != d.proc.regs.rip && IsBreakpoint(TableOnLeaving(d), m.regs.rip - 1)
  }

  /** The breakpoint that a step leaves is to be patched in again after it. */
  predicate FromPermanent(d: Dbg) {
    var bp := GetBreakpoint(d.bps, d.proc.regs.rip);
    bp != -1 && !d.bps[bp].temp
  }

  /** How a step from `d` that has led to `m` natively can end: as it should, with the process, with
      a wait that fails, or with a signal. */
  ghost predicate StepDone(d: Dbg, r: Result, m: Proc, done: bool) {
    && r.dbg.entry == d.entry && r.dbg.events == (if d.events == [] then [] else d.events[1..])
    && (r.threw <==> d.events == [] || (r.dbg.quit && FromPermanent(d)))
    && if r.value then
         d.events != [] && (done || TooEarly(d.events, m)) && AtSpot(r.dbg, Spot(m, TableOnLeaving(d), 0))
       else if r.dbg.quit || r.threw then
         Linked(r.dbg.bps, r.dbg.proc, m) && r.dbg.signum == 0 && (r.dbg.quit || d.events == [])
       else
         && d.events != [] && d.events[0].async.Signal?
         && AtSpot(r.dbg, SignalSpot(TableOnLeaving(d), m, d.events[0].async.sig, StepHit(d, m)))
  }

  lemma StepFails(cpu: Cpu, d: Dbg)
    requires d.events == [] && d.signum < 128
    ensures SingleStep(cpu, d) == Result(Resume(cpu, Lifted(d), Single), false, true)
  {
    hide ToggledMemory;
  }

  /** The wait of a step, and what is left to do after it. */
  lemma StepUnfolds(cpu: Cpu, d: Dbg) returns (done: bool)
    requires d.signum < 128 && d.events != []
    ensures var d1 := Resume(cpu, Lifted(d), Single);
            var (d2, stop) := Awaited(cpu, d1);
            var h := Handle(d2, stop, true, d1.proc.regs.inSyscall);
            && d2 == d1.(proc := Ran(cpu, d1.proc, done), events := d.events[1..])
            && (stop in {Break, Stepped} || stop == Happened(d.events[0].async))
            && (stop in {Break, Stepped, External(SIGTRAP)} ==> done || TooEarly(d.events, d1.proc))
            && (done ==> !TooEarly(d.events, d1.proc))
            && WaitProgram(cpu, d1, true) == Result(h.dbg, h.value, false)
            && SingleStep(cpu, d) == Restored(Result(h.dbg, h.value, false), GetBreakpoint(d.bps, d.proc.regs.rip))
  {
    hide Instr, Exec, ToggledMemory, Awaited, Handle, WaitProgram;
    var d1 := Resume(cpu, Lifted(d), Single);
    done := SingleAwaited(cpu, d1);
    SteppedWait(cpu, d1);
  }

  lemma StepEnds(d: Dbg, h: Handled, m: Proc, done: bool, patches: set<int>)
    requires Linked(h.dbg.bps, h.dbg.proc, m) && Covers(h.dbg.bps, patches)
    requires TableEvolvesTo(d, h) && h.dbg.bps == Lifted(d).bps
    requires h.dbg.signum == 0 && h.dbg.entry == d.entry && d.events != [] && h.dbg.events == d.events[1..]
    requires (h.value ==> (done || TooEarly(d.events, m)) && !h.dbg.quit) && (!h.value ==> h.dbg.quit)
    ensures var r := Restored(Result(h.dbg, h.value, false), GetBreakpoint(d.bps, d.proc.regs.rip));
            StepDone(d, r, m, done) && Covers(r.dbg.bps, patches)
  {
    hide Patched, Covers, TableOnLeaving;
    var w := Result(h.dbg, h.value, false);
    RestoredLinked(d, w, m, patches);
    RestoredTable(d, w);
  }

  ghost predicate TableEvolvesTo(d: Dbg, h: Handled) {
    OneShot.TableEvolves(Result(h.dbg, h.value, false), Lifted(d).bps)
  }

  lemma StepInterrupted(d: Dbg, h: Handled, m: Proc, sig: Signo, done: bool, patches: set<int>)
    requires var hit := IsBreakpoint(Lifted(d).bps, m.regs.rip - 1);
             AtSpot(h.dbg, SignalSpot(Lifted(d).bps, m, sig, hit)) && Covers(h.dbg.bps, patches)
    requires TableEvolvesTo(d, h) && Distinct(d.bps) && sig != SIGTRAP
    requires h.dbg.entry == d.entry && d.events != [] && h.dbg.events == d.events[1..]
    requires d.events[0].async == Signal(sig) && !h.value && !h.dbg.quit
    ensures var r := Restored(Result(h.dbg, h.value, false), GetBreakpoint(d.bps, d.proc.regs.rip));
            StepDone(d, r, m, done) && Covers(r.dbg.bps, patches)
  {
    hide Patched, Covers, TableOnLeaving, TakenOut, GetBreakpoint;
    var w, addr := Result(h.dbg, h.value, false), m.regs.rip - 1;
    var hit := IsBreakpoint(Lifted(d).bps, addr);
    LiftedNotLive(d);
    if addr != d.proc.regs.rip { SameElsewhere(d, addr); }
    RestoredLinked(d, w, if hit then Back(m) else m, patches);
    if hit {
      RestoredTaken(d, w, addr);
    } else {
      RestoredTable(d, w);
    }
  }

  /** The program with the pending signal delivered to it. */
  function Received(cpu: Cpu, signum: nat, n: Proc): Proc
    requires signum < 128
  {
    if signum == 0 then n else Exec(cpu, Deliver(signum), n)
  }

  /** The signal has led to another live breakpoint: the step executes its int3 for an instruction. */
  predicate Slips(d: Dbg, n: Proc) {
    n.regs.rip != d.proc.regs.rip && IsBreakpoint(TableOnLeaving(d), n.regs.rip)
  }

  function SteppedTo(cpu: Cpu, d: Dbg, n: Proc, done: bool): Proc {
    if done && Slips(d, n) then Moved(cpu, Slip, n) else Ran(cpu, n, done)
  }

  lemma ReceivedLinked(cpu: Cpu, d: Dbg, mode: Mode, n: Proc, patches: set<int>)
    requires WellBehaved(cpu) && Covers(d.bps, patches) && Respectful(cpu, n, patches)
    requires Linked(d.bps, d.proc, n) && d.signum < 128
    ensures var n1 := Received(cpu, d.signum, n);
            && Linked(d.bps, Resume(cpu, d, mode).proc, n1) && Respectful(cpu, n1, patches)
            && (d.signum != 0 ==> !n1.regs.inSyscall)
  {
    hide Patched;
    if d.signum != 0 {
      var act := Deliver(d.signum);
      assert Native(cpu, n, []) == n && Clear(cpu, Native(cpu, n, []), act, patches);
      ExecLinked(cpu, act, d.bps, d.proc, n, patches);
      assert Native(cpu, n, [act]) == Exec(cpu, act, n);
      RespectfulNative(cpu, n, [act], patches);
    }
  }

  /** What a step does to the process it does to the program, int3s that a signal has led to apart. */
  lemma SteppedLinked(cpu: Cpu, d: Dbg, p: Proc, n: Proc, done: bool, patches: set<int>)
    requires WellBehaved(cpu) && Covers(Lifted(d).bps, patches) && Respectful(cpu, n, patches)
    requires Linked(Lifted(d).bps, p, n) && Distinct(d.bps)
    requires n.regs.rip != d.proc.regs.rip ==> !n.regs.inSyscall
    ensures Linked(Lifted(d).bps, Ran(cpu, p, done), SteppedTo(cpu, d, n, done))
  {
    hide WellBehaved, Covers, Respectful, Instr, Distinct, TableOnLeaving, Lifted;
    LiftedNotLive(d);
    var rip := n.regs.rip;
    if rip != d.proc.regs.rip { SameElsewhere(d, rip); }
    if done && Slips(d, n) {
      assert Rd(p.mem, rip) == if IsBreakpoint(Lifted(d).bps, rip) then INT3 else Rd(n.mem, rip);
      AtInt3Instr(cpu, p);
    } else if done {
      var _ := InstrLinked(cpu, Lifted(d).bps, p, n, patches);
    }
  }

  /** A step delivers the pending signal, and is then exactly one instruction of the undebugged program,
      or what is left of a system call, or the int3 of another breakpoint, if the signal has led there;
      it uses up a temporary breakpoint that it leaves. Unless the process ends, the wait fails, or a
      signal comes, of which a SIGTRAP sent before the process has run is taken for the end of the step. */
  lemma StepsOnce(cpu: Cpu, d: Dbg, n: Proc, patches: set<int>) returns (done: bool)
    requires WellBehaved(cpu) && Covers(d.bps, patches) && Respectful(cpu, n, patches)
    requires Linked(d.bps, d.proc, n) && d.signum < 128 && !d.quit
    ensures var r := SingleStep(cpu, d);
            && StepDone(d, r, SteppedTo(cpu, d, Received(cpu, d.signum, n), done), done)
            && Covers(r.dbg.bps, patches) && (done ==> !TooEarly(d.events, Received(cpu, d.signum, n)))
  {
    hide Instr, Exec, WellBehaved, Patched, Covers, Respectful, IsBreakpoint, Restored, TableOnLeaving, Awaited, Handle;
    hide SingleStep, WaitProgram, Slips;
    LiftedLinked(d, n, patches);
    LinkedDistinct(d, n);
    ReceivedLinked(cpu, Lifted(d), Single, n, patches);
    var d1, n1 := Resume(cpu, Lifted(d), Single), Received(cpu, d.signum, n);
    if d.events == [] {
      done := false;
      StepFails(cpu, d);
    } else {
      done := StepUnfolds(cpu, d);
      SteppedLinked(cpu, d, d1.proc, n1, done, patches);
      var (d2, stop) := Awaited(cpu, d1);
      var h := Handle(d2, stop, true, d1.proc.regs.inSyscall);
      var m := SteppedTo(cpu, d, n1, done);
      OneShot.HandleEvolves(d2, stop, true, d1.proc.regs.inSyscall);
      HandleTable(d2, stop, true, d1.proc.regs.inSyscall, patches);
      if stop in {Break, Stepped, External(SIGTRAP), Ended} {
        HandleStepped(d2, stop, d1.proc.regs.inSyscall);
        StepEnds(d, h, m, done, patches);
      } else {
        HandleSignal(d2, stop.sig, true, d1.proc.regs.inSyscall, m);
        StepInterrupted(d, h, m, stop.sig, done, patches);
      }
    }
  }
}
