/** Short sessions at which the run loop does not do what one would expect. */
module Pitfalls {
  import opened Tracee
  import opened Breakpoints
  import opened Commands
  import opened Transparency
  import Books
  import OneShot

  /** A processor that has nothing but one-byte instructions, and a system call at 10. */
  function Machine(back: int): Cpu {
    Cpu((act: Act, r: Regs, m: Memory) => Effect(After(back, act, r), map[]), (act: Act, r: Regs, m: Memory) => {})
  }

  function After(back: int, act: Act, r: Regs): Regs {
    if act.Deliver? then r.(inSyscall := false)
    else if r.inSyscall then r.(inSyscall := false, rip := back)
    else if r.rip == 10 then r.(inSyscall := true, rip := 11)
    else r.(rip := r.rip + 1)
  }

  lemma MachineBehaves(back: int)
    ensures WellBehaved(Machine(back))
  {
  }

  function At(rip: int): Proc {
    Proc(Regs(rip, 0, false, []), map[])
  }

  // ---- Following a session ----

  lemma WaitIs(cpu: Cpu, d: Dbg, step: bool, p: Proc, stop: Stop)
    requires d.signum == 0 && d.events != [] && KernelRun(cpu, d.mode, d.proc, d.events[0]) == (p, stop)
    ensures var h := Handle(d.(proc := p, events := d.events[1..]), stop, step, d.proc.regs.inSyscall);
            var r := ContinueExecution(cpu, h.dbg);
            WaitProgram(cpu, d, step)
            == if h.again then Result(r.dbg, false, r.threw) else Result(h.dbg, h.value, false)
  {
    hide KernelRun, Handle, ContinueExecution;
  }

  lemma ContinueIs(cpu: Cpu, d: Dbg)
    requires d.signum == 0 && !IsBreakpoint(d.bps, d.proc.regs.rip)
    ensures ContinueExecution(cpu, d) == WaitProgram(cpu, d.(mode := if d.watch != [] then Sysc else Cont), false)
  {
    hide WaitProgram;
  }

  lemma StepIs(cpu: Cpu, d: Dbg)
    requires d.signum == 0 && !IsBreakpoint(d.bps, d.proc.regs.rip)
    ensures SingleStep(cpu, d) == WaitProgram(cpu, d.(mode := Single), true)
  {
    hide WaitProgram;
  }

  lemma SessionIs(cpu: Cpu, d: Dbg, c: Cmd, more: seq<Cmd>)
    requires d.signum == 0 && !d.quit && !Overruns(d, c)
    ensures Session(cpu, d, [c] + more) == Session(cpu, Apply(cpu, d, c), more)
  {
    hide Apply, Overruns;
    assert ([c] + more)[1..] == more;
  }

  lemma LastIs(cpu: Cpu, d: Dbg, c: Cmd)
    requires d.signum == 0 && !d.quit && !Overruns(d, c)
    ensures Session(cpu, d, [c]) == Apply(cpu, d, c)
  {
    hide Apply, Overruns;
    assert [c][1..] == [];
    var d1 := Apply(cpu, d, c);
    assert Session(cpu, d1, []) == d1;
  }

  // ---- Signals ----

  /** A signal that arrives one byte after a breakpoint moves RIP back onto it. */
  lemma SignalMovesBack(cpu: Cpu)
    ensures var d := Session(cpu, Started(At(2), [Event(0, Signal(10))]), [Place(1, false, false), Continue]);
            d.proc.regs.rip == 1 && Misfired(d.trace)
  {
    hide Poke, Peek;
    var d0 := Started(At(2), [Event(0, Signal(10))]);
    var d1 := PlaceBreakpoint(d0, 1, false, false);
    assert LiveAt(d1.bps[0], 1) && GetBreakpoint(d1.bps, 2) == -1 && GetBreakpoint(d1.bps, 1) == 0;
    SessionIs(cpu, d0, Place(1, false, false), [Continue]);
    assert [Place(1, false, false)] + [Continue] == [Place(1, false, false), Continue];
    ContinueIs(cpu, d1);
    WaitIs(cpu, d1.(mode := Cont), false, d1.proc, External(10));
    var d2 := ContinueExecution(cpu, d1).dbg;
    assert d2.trace == [Reported(External(10), d1.proc.regs, false, false, true)];
    assert Misfire(d2.trace[0]);
    LastIs(cpu, d1, Continue);
  }

  /** A SIGTRAP that is sent during a step is lost. */
  lemma SignalSwallowed(cpu: Cpu)
    ensures var d := Session(cpu, Started(At(2), [Event(0, Signal(SIGTRAP))]), [StepInstr]);
            Books.Foreign(d.trace) == [SIGTRAP] && Injections(d.trace) == [] && d.signum == 0
  {
    hide Handle, SingleStep, WaitProgram, Books.Foreign, Injections;
    var d0 := Started(At(2), [Event(0, Signal(SIGTRAP))]);
    LastIs(cpu, d0, StepInstr);
    StepIs(cpu, d0);
    WaitIs(cpu, d0.(mode := Single), true, At(2), External(SIGTRAP));
    TrapHandled(d0.(mode := Single, events := []));
    var note := Reported(External(SIGTRAP), At(2).regs, true, false, false);
    assert SingleStep(cpu, d0).dbg.trace == [note];
    OneNote(note);
  }

  lemma TrapHandled(d: Dbg)
    requires d.signum == 0 && d.bps == [] && d.trace == []
    ensures Handle(d, External(SIGTRAP), true, false)
         == Handled(d.(trace := [Reported(External(SIGTRAP), d.proc.regs, true, false, false)]), true, false)
  {
  }

  lemma OneNote(note: Note)
    requires note.Reported? && note.stop == External(SIGTRAP)
    ensures Books.Foreign([note]) == [SIGTRAP] && Injections([note]) == []
  {
    assert [note][..0] == [];
  }

  // ---- System calls ----

  lemma MachineStep(back: int, p: Proc)
    requires !AtInt3(p)
    ensures Exec(Machine(back), Step, p) == p.(regs := After(back, Step, p.regs))
  {
    assert p.mem + map[] == p.mem;
  }

  /** The debugger after a system call stop. */
  function AfterCall(back: int, d: Dbg): Dbg
    requires d.events != []
  {
    var regs := After(back, Step, d.proc.regs);
    d.(mode := Sysc, proc := d.proc.(regs := regs), events := d.events[1..], entry := !d.entry,
    trace := d.trace + [Reported(SyscallStop, regs, false, d.proc.regs.inSyscall, false)])
  }

  /** Continuing from a call, or from the inside of one, away from breakpoints. */
  lemma ContinueCall(back: int, d: Dbg)
    requires d.signum == 0 && d.watch != [] && !IsBreakpoint(d.bps, d.proc.regs.rip)
    requires d.events != [] && d.events[0] == Event(1, Exited) && !AtInt3(d.proc)
    requires d.proc.regs.inSyscall || d.proc.regs.rip == 10
    requires !IsBreakpoint(d.bps, After(back, Step, d.proc.regs).rip - 1)
    ensures var d1, r := AfterCall(back, d), ContinueExecution(Machine(back), d);
            if InSyscalls(d.watch, ToInt(d.proc.regs.origRax)) && d1.entry then r == Result(d1, false, false)
            else r.dbg == ContinueExecution(Machine(back), d1).dbg
  {
    hide ContinueExecution, GetBreakpoint, Exec, InSyscalls, ToInt, Handle;
    ContinueIs(Machine(back), d);
    MachineStep(back, d.proc);
    var q := d.proc.(regs := After(back, Step, d.proc.regs));
    WaitIs(Machine(back), d.(mode := Sysc), false, q, SyscallStop);
    CallHandled(d.(mode := Sysc, proc := q, events := d.events[1..]), d.proc.regs.inSyscall);
  }

  lemma CallHandled(d: Dbg, fromSyscall: bool)
    requires d.signum == 0 && !IsBreakpoint(d.bps, d.proc.regs.rip - 1)
    ensures var h := Handle(d, SyscallStop, false, fromSyscall);
            var note := Reported(SyscallStop, d.proc.regs, false, fromSyscall, false);
            && h.dbg == d.(entry := !d.entry, trace := d.trace + [note])
            && !h.value && (h.again <==> !(InSyscalls(d.watch, ToInt(d.proc.regs.origRax)) && !d.entry))
  {
    hide InSyscalls, ToInt, GetBreakpoint;
  }

  ghost predicate NoHits(t: seq<Note>) {
    forall i :: 0 <= i < |t| && t[i].Reported? ==> t[i].stop != Break
  }

  lemma StepHandled(d: Dbg, fromSyscall: bool)
    requires d.signum == 0
    ensures var h := Handle(d, Stepped, true, fromSyscall);
            && h.value && !h.again && h.dbg == d.(trace := h.dbg.trace)
            && (NoHits(d.trace) ==> NoHits(h.dbg.trace))
  {
    hide GetBreakpoint;
  }

  /** A single step that runs to its end, away from breakpoints. */
  lemma StepEnds(back: int, d: Dbg)
    requires d.signum == 0 && !IsBreakpoint(d.bps, d.proc.regs.rip)
    requires d.events != [] && d.events[0] == Event(2, Exited) && !AtInt3(d.proc) && d.proc.regs.inSyscall
    ensures var r := SingleStep(Machine(back), d);
            && r.value && r.dbg.entry == d.entry && r.dbg.quit == d.quit
            && r.dbg.proc.regs == After(back, Step, d.proc.regs)
  {
    hide GetBreakpoint, Exec, Handle, SingleStep, WaitProgram;
    var q := d.proc.(regs := After(back, Step, d.proc.regs));
    StepIs(Machine(back), d);
    MachineStep(back, d.proc);
    WaitIs(Machine(back), d.(mode := Single), true, q, Stepped);
    StepHandled(d.(mode := Single, proc := q, events := d.events[1..]), true);
  }

  /** Stepping out of a watched call leaves the entry flag set outside of any call. */
  lemma FlagLeftSet()
    ensures var d0 := Started(At(10), [Event(1, Exited), Event(2, Exited)]);
            var d := Session(Machine(11), d0, [Watch(0), Continue, StepInstr]);
            WellBehaved(Machine(11)) && d.entry && !d.proc.regs.inSyscall && !d.quit
  {
    hide ContinueExecution, SingleStep, Handle, WellBehaved;
    MachineBehaves(11);
    var cpu := Machine(11);
    var d0 := Started(At(10), [Event(1, Exited), Event(2, Exited)]);
    var d1 := AddSyscallBreak(d0, 0);
    assert forall a :: GetBreakpoint(d1.bps, a) == -1;
    ContinueCall(11, d1);
    var d2 := AfterCall(11, d1);
    StepEnds(11, d2);
    SessionIs(cpu, d0, Watch(0), [Continue, StepInstr]);
    SessionIs(cpu, d1, Continue, [StepInstr]);
    LastIs(cpu, d2, StepInstr);
    assert [Watch(0), Continue, StepInstr] == [Watch(0)] + [Continue, StepInstr];
    assert [Continue, StepInstr] == [Continue] + [StepInstr];
  }

  // ---- Breakpoints passed over ----

  /** The debugger with a breakpoint placed after one on a system call was deleted. */
  function Prepared(addr: int, temp: bool, events: seq<Event>): Dbg {
    var bp0 := Bp(1, false, false, true, 9, 0, true, true);
    var bp1 := Bp(2, temp, false, false, addr, Peek(map[], addr, 8), true, false);
    Started(At(10).(mem := PlacedMemory(map[], addr)), events).(bps := [bp0, bp1], watch := [-1])
  }

  function Orders(addr: int, temp: bool): seq<Cmd> {
    [Watch(9), Delete(1), Place(addr, temp, false), Continue]
  }

  lemma PreparedIs(cpu: Cpu, addr: int, temp: bool, events: seq<Event>)
    ensures Session(cpu, Started(At(10), events), Orders(addr, temp))
         == ContinueExecution(cpu, Prepared(addr, temp, events)).dbg
  {
    hide Peek, Poke, ContinueExecution, PlacedMemory, Session;
    var d0 := Started(At(10), events);
    var d1 := AddSyscallBreak(d0, 9);
    var d2 := BreakDel(d1, 1).dbg;
    var d3 := Prepared(addr, temp, events);
    var c3, c2, c1 := [Continue], [Place(addr, temp, false), Continue], [Delete(1), Place(addr, temp, false), Continue];
    assert Orders(addr, temp) == [Watch(9)] + c1;
    assert c1 == [Delete(1)] + c2 && c2 == [Place(addr, temp, false)] + c3;
    SessionIs(cpu, d0, Watch(9), c1);
    SessionIs(cpu, d1, Delete(1), c2);
    SessionIs(cpu, d2, Place(addr, temp, false), c3);
    assert PlaceBreakpoint(d2, addr, temp, false) == d3;
    LastIs(cpu, d3, Continue);
  }

  lemma OnlyAt(addr: int, temp: bool, events: seq<Event>)
    ensures var d := Prepared(addr, temp, events);
            && (forall a :: GetBreakpoint(d.bps, a) == if a == addr then 1 else -1)
            && (forall a :: Rd(d.proc.mem, a) == if a == addr then INT3 else 0)
            && |d.bps| == 2 && d.bps[1].addr == addr && d.bps[1].temp == temp && Live(d.bps[1])
            && d.bps[1].word % 256 == 0
            && d.watch == [-1] && d.proc.regs == At(10).regs && d.events == events && d.trace == []
            && d.signum == 0 && !d.quit && !d.entry
  {
    PokeLowByte(map[], addr, INT3, 8);
    LowByte(0, Peek(map[], addr + 1, 7));
    hide Poke;
    var d := Prepared(addr, temp, events);
    forall a ensures GetBreakpoint(d.bps, a) == if a == addr then 1 else -1 {
      assert !LiveAt(d.bps[0], a) && (LiveAt(d.bps[1], a) <==> a == addr);
    }
  }

  lemma LiftedByte(d: Dbg, i: nat)
    requires GetBreakpoint(d.bps, d.proc.regs.rip) == i
    ensures Rd(Lifted(d).proc.mem, d.proc.regs.rip) == d.bps[i].word % 256 && Lifted(d).proc.regs == d.proc.regs
    ensures Lifted(d).bps == d.bps[i := d.bps[i].(enabled := false)]
  {
    PokeLowByte(d.proc.mem, d.bps[i].addr, d.bps[i].word % 256, 8);
    hide Poke, Peek;
  }

  /** Continuing from a breakpoint: a step, and then the process ends. */
  lemma LeaveAndEnd(back: int, d: Dbg, i: nat)
    requires d.signum == 0 && d.watch != [] && !d.quit && NoHits(d.trace)
    requires GetBreakpoint(d.bps, d.proc.regs.rip) == i && d.bps[i].word % 256 == 0 && d.proc.regs.rip != 10
    requires d.events == [Event(2, Exited), Event(0, Exited)]
    ensures var d' := ContinueExecution(Machine(back), d).dbg;
            d'.quit && NoHits(d'.trace) && |d'.bps| == |d.bps| && d'.bps[i].enabled == !d.bps[i].temp
  {
    hide GetBreakpoint, Exec, ToggledMemory, NoHits;
    var cpu := Machine(back);
    LiftedByte(d, i);
    var d1 := Lifted(d).(mode := Single);
    MachineStep(back, d1.proc);
    var q := Exec(cpu, Step, d1.proc);
    assert Instr(cpu, d1.proc) == q;
    WaitIs(cpu, d1, true, q, Stepped);
    var w := WaitProgram(cpu, d1, true);
    StepHandled(d1.(proc := q, events := d1.events[1..]), d1.proc.regs.inSyscall);
    var r := Restored(w, i);
    assert SingleStep(cpu, d) == r;
    var d2 := r.dbg.(mode := Sysc);
    WaitIs(cpu, d2, false, d2.proc, Ended);
    EndHandled(d2.(events := []), d2.proc.regs.inSyscall);
  }

  lemma EndHandled(d: Dbg, fromSyscall: bool)
    requires d.signum == 0 && NoHits(d.trace)
    ensures var h := Handle(d, Ended, false, fromSyscall);
            !h.again && h.dbg == d.(quit := true, trace := h.dbg.trace) && NoHits(h.dbg.trace)
  {
  }

  /** A system call that is left at a breakpoint elsewhere, as sigreturn does, passes over it: the
      program comes to 50, the breakpoint there is live, and it is not hit. */
  lemma BreakpointSkipped()
    ensures var cpu := Machine(50);
            var events := [Event(1, Exited), Event(1, Exited), Event(2, Exited), Event(0, Exited)];
            var d := Session(cpu, Started(At(10), events), Orders(50, false));
            && WellBehaved(cpu) && Steps(cpu, At(10), 2).regs == Regs(50, 0, false, [])
            && |d.bps| == 2 && d.bps[1].addr == 50 && d.bps[1].enabled && d.quit && NoHits(d.trace)
  {
    hide ContinueExecution, GetBreakpoint, Prepared, Exec, Session, WellBehaved;
    var cpu := Machine(50);
    var events := [Event(1, Exited), Event(1, Exited), Event(2, Exited), Event(0, Exited)];
    MachineBehaves(50);
    PreparedIs(cpu, 50, false, events);
    OnlyAt(50, false, events);
    var d := Prepared(50, false, events);
    ContinueCall(50, d);
    var d1 := AfterCall(50, d);
    ContinueCall(50, d1);
    var d2 := AfterCall(50, d1);
    assert d2.events == events[2..];
    LeaveAndEnd(50, d2, 1);
    TwoSteps(50);
    OneShot.ContinueEvolves(cpu, d2);
    assert OneShot.Fades(d2.bps[1], ContinueExecution(cpu, d2).dbg.bps[1]);
  }

  lemma TwoSteps(back: int)
    ensures Steps(Machine(back), At(10), 2).regs == Regs(back, 0, false, [])
  {
    var q := Exec(Machine(back), Step, At(10));
    assert Steps(Machine(back), q, 1) == Steps(Machine(back), Exec(Machine(back), Step, q), 0);
  }

  /** A temporary breakpoint behind a system call is used up at its entry stop, and not hit. */
  lemma TemporarySkipped()
    ensures var cpu := Machine(11);
            var events := [Event(1, Exited), Event(2, Exited), Event(0, Exited)];
            var d := Session(cpu, Started(At(10), events), Orders(11, true));
            && WellBehaved(cpu) && Steps(cpu, At(10), 2).regs == Regs(11, 0, false, [])
            && |d.bps| == 2 && !d.bps[1].enabled && d.quit && NoHits(d.trace)
  {
    hide ContinueExecution, GetBreakpoint, Prepared, Exec, Session, WellBehaved;
    var cpu := Machine(11);
    var events := [Event(1, Exited), Event(2, Exited), Event(0, Exited)];
    MachineBehaves(11);
    PreparedIs(cpu, 11, true, events);
    OnlyAt(11, true, events);
    var d := Prepared(11, true, events);
    ContinueCall(11, d);
    var d1 := AfterCall(11, d);
    assert d1.events == events[1..];
    LeaveAndEnd(11, d1, 1);
    TwoSteps(11);
  }
}
