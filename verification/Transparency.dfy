/**
 Debugging a program does not change what it computes.

 The debugged process is related to the same program running without a debugger; each command
 moves the undebugged program by some acts, and the relation holds again.
 */
module Transparency {
  import opened Tracee
  import opened Breakpoints
  import opened Commands
  import opened OneShot

  /** Same registers, same memory up to the int3s. */
  ghost predicate Linked(bps: seq<Bp>, p: Proc, n: Proc) {
    p.regs == n.regs && Patched(bps, p.mem, n.mem)
  }

  ghost predicate Covers(bps: seq<Bp>, patches: set<int>) {
    forall i :: 0 <= i < |bps| && !bps[i].syscall ==> bps[i].addr in patches
  }

  /** The next act neither reads nor writes a patched byte, except to fetch its own first byte. */
  ghost predicate Clear(cpu: Cpu, n: Proc, act: Act, patches: set<int>) {
    (act.Step? && AtInt3(n)) ||
    (var own := if act.Step? && !n.regs.inSyscall then {n.regs.rip} else {};
     && cpu.effect(act, n.regs, n.mem).writes.Keys !! patches
     && cpu.touches(act, n.regs, n.mem) - own !! patches)
  }

  /** The program, run without a debugger, never uses a patched address as anything but the first
      byte of an instruction. */
  ghost predicate Respectful(cpu: Cpu, n: Proc, patches: set<int>) {
    forall acts: seq<Act>, act: Act :: Clear(cpu, Native(cpu, n, acts), act, patches)
  }

  lemma RespectfulNative(cpu: Cpu, n: Proc, acts: seq<Act>, patches: set<int>)
    requires Respectful(cpu, n, patches)
    ensures Respectful(cpu, Native(cpu, n, acts), patches)
  {
    forall more: seq<Act>, act: Act ensures Clear(cpu, Native(cpu, Native(cpu, n, acts), more), act, patches) {
      NativeAppend(cpu, n, acts, more);
      assert Clear(cpu, Native(cpu, n, acts + more), act, patches);
    }
  }

  /** One act of the patched process is the same act of the native one. */
  lemma ExecLinked(cpu: Cpu, act: Act, bps: seq<Bp>, p: Proc, n: Proc, patches: set<int>)
    requires WellBehaved(cpu) && Covers(bps, patches)
    requires Linked(bps, p, n) && Clear(cpu, n, act, patches)
    requires act.Step? && !n.regs.inSyscall ==> !IsBreakpoint(bps, n.regs.rip)
    ensures Linked(bps, Exec(cpu, act, p), Exec(cpu, act, n))
  {
    if !(act.Step? && AtInt3(n)) {
      var touched := cpu.touches(act, n.regs, n.mem);
      var e := cpu.effect(act, n.regs, n.mem);
      forall a | a in touched ensures Rd(n.mem, a) == Rd(p.mem, a) {
        assert !IsBreakpoint(bps, a);
      }
      assert cpu.effect(act, n.regs, p.mem) == e;
      var pm, nm := p.mem + e.writes, n.mem + e.writes;
      forall a ensures Rd(pm, a) == if IsBreakpoint(bps, a) then INT3 else Rd(nm, a) {
        assert Rd(p.mem, a) == if IsBreakpoint(bps, a) then INT3 else Rd(n.mem, a);
        assert IsBreakpoint(bps, a) ==> a in patches;
      }
    }
  }

  function Delivered(acts: seq<Act>): seq<Signo> {
    if acts == [] then []
    else if acts[0].Deliver? then [acts[0].sig] + Delivered(acts[1..])
    else Delivered(acts[1..])
  }

  lemma {:induction false} DeliveredAppend(a: seq<Act>, b: seq<Act>)
    ensures Delivered(a + b) == Delivered(a) + Delivered(b)
    decreases |a|
  {
    if a == [] {
      assert a + b == b;
    } else {
      assert (a + b)[1..] == a[1..] + b;
      DeliveredAppend(a[1..], b);
    }
  }

  function Injections(t: seq<Note>): seq<Signo> {
    if t == [] then []
    else if t[|t| - 1].Injected? then Injections(t[..|t| - 1]) + [t[|t| - 1].sig]
    else Injections(t[..|t| - 1])
  }

  lemma InjectionsNext(t: seq<Note>, note: Note)
    ensures Injections(t + [note]) == if note.Injected? then Injections(t) + [note.sig] else Injections(t)
  {
    assert (t + [note])[..|t|] == t;
  }

  function Back(p: Proc): Proc {
    p.(regs := p.regs.(rip := p.regs.rip - 1))
  }

  /** How a process that has just stopped relates to the native one: an int3 of the debugger has
      moved RIP past a byte that the native program has yet to execute. */
  ghost predicate StoppedLinked(bps: seq<Bp>, p: Proc, stop: Stop, n: Proc) {
    Linked(bps, if stop == Break && IsBreakpoint(bps, p.regs.rip - 1) then Back(p) else p, n)
  }

  lemma DoLinked(cpu: Cpu, bps: seq<Bp>, p: Proc, n: Proc, patches: set<int>)
    requires WellBehaved(cpu) && Covers(bps, patches)
    requires Linked(bps, p, n) && Respectful(cpu, n, patches)
    requires !n.regs.inSyscall ==> !IsBreakpoint(bps, n.regs.rip)
    ensures Native(cpu, n, [Step]) == Exec(cpu, Step, n)
    ensures Linked(bps, Exec(cpu, Step, p), Exec(cpu, Step, n)) && Respectful(cpu, Exec(cpu, Step, n), patches)
  {
    assert Native(cpu, n, []) == n && Clear(cpu, Native(cpu, n, []), Step, patches);
    ExecLinked(cpu, Step, bps, p, n, patches);
    assert Native(cpu, n, [Step]) == Exec(cpu, Step, n);
    RespectfulNative(cpu, n, [Step], patches);
  }

  lemma InstrLinked(cpu: Cpu, bps: seq<Bp>, p: Proc, n: Proc, patches: set<int>) returns (acts: seq<Act>)
    requires WellBehaved(cpu) && Covers(bps, patches)
    requires Linked(bps, p, n) && Respectful(cpu, n, patches)
    requires !n.regs.inSyscall ==> !IsBreakpoint(bps, n.regs.rip)
    ensures Native(cpu, n, acts) == Instr(cpu, n) && Delivered(acts) == []
    ensures Linked(bps, Instr(cpu, p), Instr(cpu, n)) && Respectful(cpu, Instr(cpu, n), patches)
  {
    DoLinked(cpu, bps, p, n, patches);
    acts := [Step];
    var p1, n1 := Exec(cpu, Step, p), Exec(cpu, Step, n);
    if n1.regs.inSyscall && !n.regs.inSyscall {
      DoLinked(cpu, bps, p1, n1, patches);
      acts := [Step] + [Step];
      NativeAppend(cpu, n, [Step], [Step]);
      DeliveredAppend([Step], [Step]);
    }
  }

  lemma AdvanceLinked(cpu: Cpu, mode: Mode, bps: seq<Bp>, p: Proc, n: Proc, patches: set<int>) returns (acts: seq<Act>)
    requires WellBehaved(cpu) && Covers(bps, patches)
    requires Linked(bps, p, n) && Respectful(cpu, n, patches)
    requires !n.regs.inSyscall ==> !IsBreakpoint(bps, n.regs.rip)
    ensures Native(cpu, n, acts) == Advance(cpu, mode, n) && Delivered(acts) == []
    ensures Linked(bps, Advance(cpu, mode, p), Advance(cpu, mode, n)) && Respectful(cpu, Advance(cpu, mode, n), patches)
  {
    if mode == Sysc {
      DoLinked(cpu, bps, p, n, patches);
      acts := [Step];
    } else {
      acts := InstrLinked(cpu, bps, p, n, patches);
    }
  }

  /** An int3 is either one of the debugger's, which the native process does not see, or its own. */
  lemma BreakLinked(cpu: Cpu, bps: seq<Bp>, p: Proc, n: Proc, patches: set<int>) returns (acts: seq<Act>)
    requires WellBehaved(cpu) && Covers(bps, patches)
    requires Linked(bps, p, n) && Respectful(cpu, n, patches) && AtInt3(p)
    ensures StoppedLinked(bps, Exec(cpu, Step, p), Break, Native(cpu, n, acts)) && Delivered(acts) == []
    ensures IsBreakpoint(bps, n.regs.rip) ==> acts == []
  {
    acts := [];
    if IsBreakpoint(bps, n.regs.rip) {
      assert Native(cpu, n, acts) == n;
      assert Back(Exec(cpu, Step, p)) == p;
    } else {
      DoLinked(cpu, bps, p, n, patches);
      acts := [Step];
    }
  }

  lemma NotAtInt3(bps: seq<Bp>, p: Proc, n: Proc)
    requires Linked(bps, p, n) && !AtInt3(p)
    ensures !n.regs.inSyscall ==> !IsBreakpoint(bps, n.regs.rip)
  {
    assert Rd(p.mem, p.regs.rip) == if IsBreakpoint(bps, p.regs.rip) then INT3 else Rd(n.mem, p.regs.rip);
  }

  lemma {:induction false} RunLinked(cpu: Cpu, mode: Mode, bps: seq<Bp>, p: Proc, n: Proc, budget: nat, async: Async,
                                     patches: set<int>)
    returns (acts: seq<Act>)
    requires WellBehaved(cpu) && Covers(bps, patches)
    requires Linked(bps, p, n) && Respectful(cpu, n, patches)
    ensures var (p', stop) := Run(cpu, mode, p, budget, async); StoppedLinked(bps, p', stop, Native(cpu, n, acts))
    ensures Delivered(acts) == []
    ensures budget > 0 && AtInt3(p) && IsBreakpoint(bps, n.regs.rip) ==> acts == []
    decreases budget
  {
    if budget == 0 {
      acts := [];
      assert Native(cpu, n, acts) == n;
    } else if AtInt3(p) {
      acts := BreakLinked(cpu, bps, p, n, patches);
    } else {
      NotAtInt3(bps, p, n);
      acts := AdvanceLinked(cpu, mode, bps, p, n, patches);
      var p1, n1 := Advance(cpu, mode, p), Advance(cpu, mode, n);
      if !(mode == Sysc && p1.regs.inSyscall != p.regs.inSyscall) && !(mode == Single && budget > 1) {
        var more := RunLinked(cpu, mode, bps, p1, n1, budget - 1, async, patches);
        NativeAppend(cpu, n, acts, more);
        DeliveredAppend(acts, more);
        acts := acts + more;
      }
    }
  }

  // ---- Stops ----

  /** The debugger moves RIP back for this stop. */
  predicate Rewinds(note: Note) {
    && note.Reported? && note.atBreakpoint && !note.stop.Ended?
    && !(note.stepping && Status(note.stop) % 0x80 == SIGTRAP)
  }

  /** An int3 of the debugger was executed. */
  predicate Hits(note: Note) {
    note.Reported? && note.atBreakpoint && note.stop == Break
  }

  predicate Misfire(note: Note) {
    Rewinds(note) != Hits(note)
  }

  ghost predicate Misfired(t: seq<Note>) {
    exists i :: 0 <= i < |t| && Misfire(t[i])
  }

  lemma HandleTable(d: Dbg, stop: Stop, step: bool, fromSyscall: bool, patches: set<int>)
    requires d.signum == 0
    ensures Covers(d.bps, patches) ==> Covers(Handle(d, stop, step, fromSyscall).dbg.bps, patches)
  {
    HandleEvolves(d, stop, step, fromSyscall);
  }

  lemma AtBreakpointPatched(bps: seq<Bp>, p: Proc, bp: nat, n: Proc)
    requires bp < |bps| && Live(bps[bp]) && Patched(bps, p.mem, n.mem)
    ensures var (bps', p') := AtBreakpoint(bps, p, bp); Patched(bps', p'.mem, n.mem) && p'.regs == Back(p).regs
  {
    if bps[bp].temp {
      TogglePatched(bps, bp, p.mem, n.mem);
    }
  }

  lemma HandleMoves(d: Dbg, stop: Stop, step: bool, fromSyscall: bool)
    requires d.signum == 0
    ensures var h := Handle(d, stop, step, fromSyscall).dbg;
            var bp := GetBreakpoint(d.bps, d.proc.regs.rip - 1);
            var note := Reported(stop, d.proc.regs, step, fromSyscall, !stop.Ended? && bp != -1);
            && h.trace == d.trace + [note]
            && (h.bps, h.proc) == if Rewinds(note) then AtBreakpoint(d.bps, d.proc, bp) else (d.bps, d.proc)
  {
  }

  /** Of all breakpoints, a stop takes out exactly the temporary one that it is taken for a hit of. */
  lemma HitTakesOutIff(d: Dbg, stop: Stop, step: bool, fromSyscall: bool, i: nat)
    requires d.signum == 0 && i < |d.bps|
    ensures var h := Handle(d, stop, step, fromSyscall).dbg;
            var hit := GetBreakpoint(d.bps, d.proc.regs.rip - 1) == i && Rewinds(h.trace[|d.trace|]);
            h.bps[i] == if hit && d.bps[i].temp then d.bps[i].(enabled := false) else d.bps[i]
  {
    hide ToggledMemory;
    HandleMoves(d, stop, step, fromSyscall);
  }

  /** A stop leaves the process linked exactly when it does not misfire. In particular a signal,
      or a system call stop, that arrives one byte after a breakpoint breaks the link. */
  lemma StopKeepsLinkIff(d: Dbg, stop: Stop, step: bool, fromSyscall: bool, n: Proc)
    requires d.signum == 0 && StoppedLinked(d.bps, d.proc, stop, n)
    ensures var h := Handle(d, stop, step, fromSyscall).dbg;
            && Injections(h.trace) == Injections(d.trace)
            && (Linked(h.bps, h.proc, n) <==> !Misfire(h.trace[|h.trace| - 1]))
  {
    HandleMoves(d, stop, step, fromSyscall);
    var bp := GetBreakpoint(d.bps, d.proc.regs.rip - 1);
    var note := Reported(stop, d.proc.regs, step, fromSyscall, !stop.Ended? && bp != -1);
    InjectionsNext(d.trace, note);
    if Rewinds(note) {
      AtBreakpointPatched(d.bps, d.proc, bp, n);
    }
  }

  // ---- Detours ----

  /** An act of the program, or the debugger leaving RIP one byte too low or too high. */
  datatype Move = Do(act: Act) | Rewind | Slip

  function Moved(cpu: Cpu, move: Move, n: Proc): Proc {
    match move
    case Do(act) => Exec(cpu, act, n)
    case Rewind => Back(n)
    case Slip => n.(regs := n.regs.(rip := n.regs.rip + 1))
  }

  function Course(cpu: Cpu, n: Proc, moves: seq<Move>): Proc
    decreases |moves|
  {
    if moves == [] then n else Course(cpu, Moved(cpu, moves[0], n), moves[1..])
  }

  /** The debugger moves RIP back onto a patched address only, and leaves it one byte behind one only
      where a signal, just `delivered`, has led there. */
  predicate AtPatch(move: Move, n: Proc, patches: set<int>, delivered: bool) {
    && (move.Rewind? ==> n.regs.rip - 1 in patches)
    && (move.Slip? ==> n.regs.rip in patches && delivered)
  }

  predicate Delivers(move: Move) {
    move.Do? && move.act.Deliver?
  }

  /** All detours of a course are made where the debugger can make them. */
  predicate Made(cpu: Cpu, n: Proc, moves: seq<Move>, patches: set<int>, delivered: bool)
    decreases |moves|
  {
    moves == [] ||
    (&& AtPatch(moves[0], n, patches, delivered)
     && Made(cpu, Moved(cpu, moves[0], n), moves[1..], patches, Delivers(moves[0])))
  }

  function Acts(moves: seq<Move>): seq<Act> {
    if moves == [] then []
    else if moves[0].Do? then [moves[0].act] + Acts(moves[1..])
    else Acts(moves[1..])
  }

  function Detours(moves: seq<Move>): seq<Move> {
    if moves == [] then []
    else if moves[0].Do? then Detours(moves[1..])
    else [moves[0]] + Detours(moves[1..])
  }

  function Lift(acts: seq<Act>): seq<Move> {
    if acts == [] then [] else [Do(acts[0])] + Lift(acts[1..])
  }

  lemma {:induction false} CourseAppend(cpu: Cpu, n: Proc, a: seq<Move>, b: seq<Move>)
    ensures Course(cpu, n, a + b) == Course(cpu, Course(cpu, n, a), b)
    decreases |a|
  {
    hide Moved;
    if a == [] {
      assert a + b == b;
    } else {
      assert (a + b)[1..] == a[1..] + b;
      CourseAppend(cpu, Moved(cpu, a[0], n), a[1..], b);
    }
  }

  /** Whether a course has just delivered a signal. */
  predicate EndsDelivering(moves: seq<Move>, delivered: bool) {
    if moves == [] then delivered else Delivers(moves[|moves| - 1])
  }

  lemma {:induction false} MadeAppend(cpu: Cpu, n: Proc, a: seq<Move>, b: seq<Move>, patches: set<int>, delivered: bool)
    ensures Made(cpu, n, a + b, patches, delivered)
       <==> && Made(cpu, n, a, patches, delivered)
            && Made(cpu, Course(cpu, n, a), b, patches, EndsDelivering(a, delivered))
    decreases |a|
  {
    hide Moved, AtPatch, Delivers;
    if a == [] {
      assert a + b == b;
    } else {
      assert (a + b)[1..] == a[1..] + b;
      assert |a| > 1 ==> a[1..][|a| - 2] == a[|a| - 1];
      MadeAppend(cpu, Moved(cpu, a[0], n), a[1..], b, patches, Delivers(a[0]));
    }
  }

  lemma MadeAnyhow(cpu: Cpu, n: Proc, moves: seq<Move>, patches: set<int>, delivered: bool)
    requires Made(cpu, n, moves, patches, false)
    ensures Made(cpu, n, moves, patches, delivered)
  {
    hide Moved;
  }

  lemma {:induction false} PartsAppend(a: seq<Move>, b: seq<Move>)
    ensures Acts(a + b) == Acts(a) + Acts(b) && Detours(a + b) == Detours(a) + Detours(b)
    decreases |a|
  {
    if a == [] {
      assert a + b == b;
    } else {
      assert (a + b)[1..] == a[1..] + b && (a + b)[0] == a[0];
      PartsAppend(a[1..], b);
      if a[0].Do? {
        assert [a[0].act] + (Acts(a[1..]) + Acts(b)) == [a[0].act] + Acts(a[1..]) + Acts(b);
      } else {
        assert [a[0]] + (Detours(a[1..]) + Detours(b)) == [a[0]] + Detours(a[1..]) + Detours(b);
      }
    }
  }

  lemma {:induction false} LiftCourse(cpu: Cpu, n: Proc, acts: seq<Act>)
    ensures Course(cpu, n, Lift(acts)) == Native(cpu, n, acts)
    decreases |acts|
  {
    hide Exec;
    if acts != [] {
      assert Lift(acts)[1..] == Lift(acts[1..]);
      LiftCourse(cpu, Exec(cpu, acts[0], n), acts[1..]);
    }
  }

  lemma {:induction false} LiftMade(cpu: Cpu, n: Proc, acts: seq<Act>, patches: set<int>, delivered: bool)
    ensures Made(cpu, n, Lift(acts), patches, delivered)
    decreases |acts|
  {
    hide Exec;
    if acts != [] {
      assert Lift(acts)[1..] == Lift(acts[1..]);
      LiftMade(cpu, Exec(cpu, acts[0], n), acts[1..], patches, acts[0].Deliver?);
    }
  }

  lemma {:induction false} LiftParts(acts: seq<Act>)
    ensures Acts(Lift(acts)) == acts && Detours(Lift(acts)) == []
    decreases |acts|
  {
    if acts != [] {
      assert Lift(acts)[1..] == Lift(acts[1..]);
      LiftParts(acts[1..]);
    }
  }

  /** Without detours a course is a run of the program by itself. */
  lemma {:induction false} CourseNative(cpu: Cpu, n: Proc, moves: seq<Move>)
    requires Detours(moves) == []
    ensures Course(cpu, n, moves) == Native(cpu, n, Acts(moves))
    decreases |moves|
  {
    hide Exec;
    if moves != [] {
      assert moves[0].Do?;
      assert Acts(moves)[1..] == Acts(moves[1..]);
      CourseNative(cpu, Exec(cpu, moves[0].act, n), moves[1..]);
    }
  }

  /** What a misfire does to RIP. */
  function Detour(note: Note): seq<Move> {
    if !Misfire(note) then [] else if Rewinds(note) then [Rewind] else [Slip]
  }

  function Misfires(t: seq<Note>): seq<Move> {
    if t == [] then [] else Misfires(t[..|t| - 1]) + Detour(t[|t| - 1])
  }

  lemma MisfiresNext(t: seq<Note>, note: Note)
    ensures Misfires(t + [note]) == Misfires(t) + Detour(note)
  {
    assert (t + [note])[..|t|] == t;
  }

  lemma {:induction false} MisfiresIff(t: seq<Note>)
    ensures Misfires(t) == [] <==> !Misfired(t)
    decreases |t|
  {
    hide Misfire;
    if t != [] {
      var u, last := t[..|t| - 1], t[|t| - 1];
      MisfiresIff(u);
      if Misfired(t) {
        var i :| 0 <= i < |t| && Misfire(t[i]);
        assert i < |u| ==> u[i] == t[i];
      }
      if Misfired(u) {
        var i :| 0 <= i < |u| && Misfire(u[i]);
        assert u[i] == t[i];
      }
    }
  }

  lemma DetourMoves(cpu: Cpu, note: Note, n: Proc)
    ensures var detour := Detour(note);
            var move := if Rewinds(note) then Rewind else Slip;
            && Acts(detour) == [] && Detours(detour) == detour
            && Course(cpu, n, detour) == if Misfire(note) then Moved(cpu, move, n) else n
  {
    hide Moved, Misfire;
    if Misfire(note) {
      var move := Detour(note)[0];
      assert Detour(note)[1..] == [];
      assert Course(cpu, Moved(cpu, move, n), []) == Moved(cpu, move, n);
    }
  }

  /** Whatever the stop is taken for, the process is linked to the program after its detour. */
  lemma StopDetour(cpu: Cpu, d: Dbg, stop: Stop, step: bool, fromSyscall: bool, n: Proc)
    requires d.signum == 0 && StoppedLinked(d.bps, d.proc, stop, n)
    ensures var h := Handle(d, stop, step, fromSyscall);
            var detour := Detour(h.dbg.trace[|d.trace|]);
            && Linked(h.dbg.bps, h.dbg.proc, Course(cpu, n, detour)) && Acts(detour) == [] && Detours(detour) == detour
            && Injections(h.dbg.trace) == Injections(d.trace) && Misfires(h.dbg.trace) == Misfires(d.trace) + detour
  {
    hide Patched, Handle, Detour, Course, Acts, Detours, AtBreakpoint, Injections, Misfires, GetBreakpoint;
    HandleMoves(d, stop, step, fromSyscall);
    var bp := GetBreakpoint(d.bps, d.proc.regs.rip - 1);
    var note := Reported(stop, d.proc.regs, step, fromSyscall, !stop.Ended? && bp != -1);
    InjectionsNext(d.trace, note);
    MisfiresNext(d.trace, note);
    DetourMoves(cpu, note, n);
    if Rewinds(note) {
      AtBreakpointPatched(d.bps, d.proc, bp, n);
    }
  }

  /** A misfire rewinds onto a breakpoint, or slips off one. */
  lemma DetourMade(cpu: Cpu, d: Dbg, stop: Stop, step: bool, fromSyscall: bool, n: Proc, patches: set<int>)
    requires d.signum == 0 && StoppedLinked(d.bps, d.proc, stop, n) && Covers(d.bps, patches)
    ensures var h := Handle(d, stop, step, fromSyscall);
            var slips := step && stop == Break && IsBreakpoint(d.bps, d.proc.regs.rip - 1);
            Made(cpu, n, Detour(h.dbg.trace[|d.trace|]), patches, slips)
  {
    hide Patched, Handle, AtBreakpoint;
    HandleMoves(d, stop, step, fromSyscall);
    var note := Handle(d, stop, step, fromSyscall).dbg.trace[|d.trace|];
    if Misfire(note) {
      assert AtPatch(Detour(note)[0], n, patches, step && stop == Break && IsBreakpoint(d.bps, d.proc.regs.rip - 1));
      assert Detour(note)[1..] == [];
    }
  }

  /** The same as Respectful, over all courses that the debugger can make of the program's run, or
      over those without detours. */
  ghost predicate Safe(cpu: Cpu, n: Proc, patches: set<int>, detours: bool) {
    forall moves: seq<Move>, act: Act {:trigger Clear(cpu, Course(cpu, n, moves), act, patches)} ::
      (detours || Detours(moves) == []) && Made(cpu, n, moves, patches, false)
      ==> Clear(cpu, Course(cpu, n, moves), act, patches)
  }

  lemma SafeLater(cpu: Cpu, n: Proc, moves: seq<Move>, patches: set<int>, detours: bool)
    requires Safe(cpu, n, patches, detours) && (detours || Detours(moves) == []) && Made(cpu, n, moves, patches, false)
    ensures Safe(cpu, Course(cpu, n, moves), patches, detours)
  {
    forall more: seq<Move>, act: Act
      | (detours || Detours(more) == []) && Made(cpu, Course(cpu, n, moves), more, patches, false)
      ensures Clear(cpu, Course(cpu, Course(cpu, n, moves), more), act, patches)
    {
      CourseAppend(cpu, n, moves, more);
      PartsAppend(moves, more);
      MadeAnyhow(cpu, Course(cpu, n, moves), more, patches, EndsDelivering(moves, false));
      MadeAppend(cpu, n, moves, more, patches, false);
      assert Clear(cpu, Course(cpu, n, moves + more), act, patches);
    }
  }

  lemma SafeRespectful(cpu: Cpu, n: Proc, patches: set<int>, detours: bool)
    requires Safe(cpu, n, patches, detours)
    ensures Respectful(cpu, n, patches)
  {
    forall acts: seq<Act>, act: Act ensures Clear(cpu, Native(cpu, n, acts), act, patches) {
      LiftCourse(cpu, n, acts);
      LiftParts(acts);
      LiftMade(cpu, n, acts, patches, false);
      assert Clear(cpu, Course(cpu, n, Lift(acts)), act, patches);
    }
  }

  lemma RespectfulSafe(cpu: Cpu, n: Proc, patches: set<int>)
    requires Respectful(cpu, n, patches)
    ensures Safe(cpu, n, patches, false)
  {
    forall moves: seq<Move>, act: Act | Detours(moves) == [] ensures Clear(cpu, Course(cpu, n, moves), act, patches) {
      CourseNative(cpu, n, moves);
      assert Clear(cpu, Native(cpu, n, Acts(moves)), act, patches);
    }
  }

  // ---- The run loop ----

  /** The debugged process has followed the program over some moves, with the signals delivered that
      were injected, and one detour, onto or off a patched address, for each misfire; `delivered` if
      a signal has been delivered right before. */
  ghost predicate Reaches(cpu: Cpu, d: Dbg, d': Dbg, n: Proc, moves: seq<Move>, patches: set<int>,
                          delivered: bool := false)
  {
    && Linked(d'.bps, d'.proc, Course(cpu, n, moves))
    && Covers(d'.bps, patches)
    && Injections(d'.trace) == Injections(d.trace) + Delivered(Acts(moves))
    && Misfires(d'.trace) == Misfires(d.trace) + Detours(moves)
    && Made(cpu, n, moves, patches, delivered)
  }

  lemma ReachesTrans(cpu: Cpu, d0: Dbg, d1: Dbg, d2: Dbg, n: Proc, a: seq<Move>, b: seq<Move>, patches: set<int>,
                     delivered: bool := false)
    requires Reaches(cpu, d0, d1, n, a, patches)
    requires Reaches(cpu, d1, d2, Course(cpu, n, a), b, patches, delivered) && (delivered ==> EndsDelivering(a, false))
    ensures Reaches(cpu, d0, d2, n, a + b, patches)
  {
    hide Linked, Covers, Course, Delivered, Injections, Acts, Detours, Misfires, Made;
    CourseAppend(cpu, n, a, b);
    if !delivered { MadeAnyhow(cpu, Course(cpu, n, a), b, patches, EndsDelivering(a, false)); }
    MadeAppend(cpu, n, a, b, patches, false);
    PartsAppend(a, b);
    DeliveredAppend(Acts(a), Acts(b));
  }

  lemma ReachesNowhere(cpu: Cpu, d: Dbg, d': Dbg, n: Proc, patches: set<int>)
    requires Linked(d'.bps, d'.proc, n) && Covers(d'.bps, patches) && d'.trace == d.trace
    ensures Reaches(cpu, d, d', n, [], patches) && Course(cpu, n, []) == n
  {
    hide Linked, Covers;
  }

  /** Misfires are counted by the trace, and in detours. */
  lemma NoDetours(cpu: Cpu, d: Dbg, d': Dbg, n: Proc, moves: seq<Move>, patches: set<int>)
    requires Reaches(cpu, d, d', n, moves, patches) && !Misfired(d'.trace)
    ensures Detours(moves) == []
  {
    MisfiresIff(d'.trace);
  }

  lemma ResumeLinked(cpu: Cpu, d: Dbg, mode: Mode, n: Proc, patches: set<int>) returns (moves: seq<Move>)
    requires WellBehaved(cpu) && Respectful(cpu, n, patches) && d.signum < 128
    requires Linked(d.bps, d.proc, n) && Covers(d.bps, patches)
    ensures Reaches(cpu, d, Resume(cpu, d, mode), n, moves, patches) && Detours(moves) == []
    ensures d.signum != 0 ==> EndsDelivering(moves, false)
  {
    moves := [];
    assert Course(cpu, n, moves) == n;
    if d.signum != 0 {
      var act := Deliver(d.signum);
      assert Native(cpu, n, []) == n && Clear(cpu, Native(cpu, n, []), act, patches);
      ExecLinked(cpu, act, d.bps, d.proc, n, patches);
      InjectionsNext(d.trace, Injected(d.signum));
      MisfiresNext(d.trace, Injected(d.signum));
      moves := Lift([act]);
      LiftCourse(cpu, n, [act]);
      LiftParts([act]);
      LiftMade(cpu, n, [act], patches, false);
      assert moves == [Do(act)];
      assert Native(cpu, n, [act]) == Exec(cpu, act, n);
      assert Delivered([act]) == [d.signum];
    }
  }

  lemma OnceForSteps(d: Dbg, stop: Stop, step: bool, fromSyscall: bool)
    requires d.signum == 0
    ensures Handle(d, stop, step, fromSyscall).again ==> !step
  {
    hide AtBreakpoint, ToInt, InSyscalls;
  }

  /** A single step starts from a breakpoint only if a signal has led there. */
  predicate StepReady(d: Dbg, step: bool, delivered: bool) {
    step ==> d.mode == Single && (delivered || d.proc.regs.inSyscall || !IsBreakpoint(d.bps, d.proc.regs.rip))
  }

  lemma BreaksAtOnce(cpu: Cpu, bps: seq<Bp>, p: Proc, budget: nat, async: Async)
    requires Run(cpu, Single, p, budget, async).1 == Break
    ensures budget > 0 && AtInt3(p) && Run(cpu, Single, p, budget, async).0.regs.rip == p.regs.rip + 1
  {
  }

  /** The detour of a stop is made where it can be. */
  lemma AwaitedMade(cpu: Cpu, d: Dbg, step: bool, n: Proc, acts: seq<Act>, patches: set<int>, delivered: bool)
    requires d.signum == 0 && d.events != [] && Covers(d.bps, patches) && StepReady(d, step, delivered)
    requires d.proc.regs == n.regs
    requires var (d1, stop) := Awaited(cpu, d); StoppedLinked(d.bps, d1.proc, stop, Native(cpu, n, acts))
    requires var ev := d.events[0];
             var budget := if ev.budget == 0 && d.proc.regs.inSyscall && ev.async.Signal? then 1 else ev.budget;
             budget > 0 && AtInt3(d.proc) && IsBreakpoint(d.bps, n.regs.rip) ==> acts == []
    ensures var (d1, stop) := Awaited(cpu, d);
            var h := Handle(d1, stop, step, d.proc.regs.inSyscall);
            Made(cpu, n, Lift(acts) + Detour(h.dbg.trace[|d.trace|]), patches, delivered)
  {
    hide Covers, Linked, Run, Handle, Detour, Made, Native, GetBreakpoint;
    var (d1, stop) := Awaited(cpu, d);
    var detour := Detour(Handle(d1, stop, step, d.proc.regs.inSyscall).dbg.trace[|d.trace|]);
    LiftMade(cpu, n, acts, patches, delivered);
    LiftCourse(cpu, n, acts);
    MadeAppend(cpu, n, Lift(acts), detour, patches, delivered);
    DetourMade(cpu, d1, stop, step, d.proc.regs.inSyscall, Native(cpu, n, acts), patches);
    if step && stop == Break && IsBreakpoint(d.bps, d1.proc.regs.rip - 1) {
      var ev := d.events[0];
      var budget := if ev.budget == 0 && d.proc.regs.inSyscall && ev.async.Signal? then 1 else ev.budget;
      BreaksAtOnce(cpu, d.bps, d.proc, budget, ev.async);
    } else {
      MadeAnyhow(cpu, Native(cpu, n, acts), detour, patches, EndsDelivering(Lift(acts), delivered));
    }
  }

  /** One event, awaited and handled. */
  lemma AwaitedLinked(cpu: Cpu, d: Dbg, step: bool, n: Proc, patches: set<int>, delivered: bool)
    returns (moves: seq<Move>)
    requires WellBehaved(cpu) && Respectful(cpu, n, patches) && d.signum == 0 && d.events != []
    requires Linked(d.bps, d.proc, n) && Covers(d.bps, patches) && StepReady(d, step, delivered)
    ensures var (d1, stop) := Awaited(cpu, d);
            var h := Handle(d1, stop, step, d.proc.regs.inSyscall);
            Reaches(cpu, d, h.dbg, n, moves, patches, delivered) && (h.again ==> !step)
  {
    hide WellBehaved, Respectful, Covers, Patched, Run, Handle, Misfires, Injections, Detour, Made, StepReady;
    hide Course, Acts, Detours, Lift, Native, Exec, GetBreakpoint;
    var ev := d.events[0];
    var budget := if ev.budget == 0 && d.proc.regs.inSyscall && ev.async.Signal? then 1 else ev.budget;
    var acts := RunLinked(cpu, d.mode, d.bps, d.proc, n, budget, ev.async, patches);
    var (d1, stop) := Awaited(cpu, d);
    LiftCourse(cpu, n, acts);
    LiftParts(acts);
    AwaitedMade(cpu, d, step, n, acts, patches, delivered);
    StopDetour(cpu, d1, stop, step, d.proc.regs.inSyscall, Native(cpu, n, acts));
    HandleTable(d1, stop, step, d.proc.regs.inSyscall, patches);
    var detour := Detour(Handle(d1, stop, step, d.proc.regs.inSyscall).dbg.trace[|d.trace|]);
    OnceForSteps(d1, stop, step, d.proc.regs.inSyscall);
    CourseAppend(cpu, n, Lift(acts), detour);
    PartsAppend(Lift(acts), detour);
    moves := Lift(acts) + detour;
    assert acts + [] == acts && [] + detour == detour;
    assert Injections(d.trace) + [] == Injections(d.trace);
  }

  lemma {:induction false} WaitLinked(cpu: Cpu, d: Dbg, step: bool, n: Proc, patches: set<int>, detours: bool,
                                      delivered: bool)
    returns (moves: seq<Move>)
    requires WellBehaved(cpu) && Safe(cpu, n, patches, detours) && d.signum == 0
    requires Linked(d.bps, d.proc, n) && Covers(d.bps, patches) && StepReady(d, step, delivered)
    ensures var d' := WaitProgram(cpu, d, step).dbg;
            detours || !Misfired(d'.trace) ==> Reaches(cpu, d, d', n, moves, patches, step && delivered)
    decreases |d.events|, 0
  {
    hide WellBehaved, Safe, Covers, Patched, Handle, Misfired;
    moves := [];
    ReachesNowhere(cpu, d, d, n, patches);
    if d.events != [] {
      SafeRespectful(cpu, n, patches, detours);
      moves := AwaitedLinked(cpu, d, step, n, patches, step && delivered);
      var (d1, stop) := Awaited(cpu, d);
      var h := Handle(d1, stop, step, d.proc.regs.inSyscall);
      if h.again {
        var d2 := ContinueExecution(cpu, h.dbg).dbg;
        if detours || !Misfired(d2.trace) {
          StillClean(h.dbg.trace, d2.trace);
          assert !step;
          if !detours { NoDetours(cpu, d, h.dbg, n, moves, patches); }
          SafeLater(cpu, n, moves, patches, detours);
          var more := ContinueLinked(cpu, h.dbg, Course(cpu, n, moves), patches, detours);
          ReachesTrans(cpu, d, h.dbg, d2, n, moves, more, patches);
          moves := moves + more;
        }
      }
    }
  }

  lemma StillClean(t: seq<Note>, t': seq<Note>)
    requires Extends(t, t')
    ensures Misfired(t) ==> Misfired(t')
  {
  }

  lemma LiftedLinked(d: Dbg, n: Proc, patches: set<int>)
    requires Linked(d.bps, d.proc, n) && Covers(d.bps, patches)
    ensures Linked(Lifted(d).bps, Lifted(d).proc, n) && Covers(Lifted(d).bps, patches)
  {
    var bp := GetBreakpoint(d.bps, d.proc.regs.rip);
    if bp != -1 {
      TogglePatched(d.bps, bp, d.proc.mem, n.mem);
    }
  }

  lemma LiftedNotLive(d: Dbg)
    requires Distinct(d.bps)
    ensures !IsBreakpoint(Lifted(d).bps, d.proc.regs.rip)
  {
    assert forall j :: 0 <= j < |d.bps| ==> !LiveAt(Lifted(d).bps[j], d.proc.regs.rip);
  }

  lemma LinkedDistinct(d: Dbg, n: Proc)
    requires Linked(d.bps, d.proc, n)
    ensures Distinct(d.bps)
  {
  }

  lemma RestoredLinked(d: Dbg, r: Result, n: Proc, patches: set<int>)
    requires TableEvolves(r, Lifted(d).bps)
    requires Linked(r.dbg.bps, r.dbg.proc, n) && Covers(r.dbg.bps, patches)
    ensures var d' := Restored(r, GetBreakpoint(d.bps, d.proc.regs.rip)).dbg;
            Linked(d'.bps, d'.proc, n) && Covers(d'.bps, patches) && d'.trace == r.dbg.trace
  {
    var bp := GetBreakpoint(d.bps, d.proc.regs.rip);
    if bp != -1 {
      assert Fades(Lifted(d).bps[bp], r.dbg.bps[bp]);
      if Sticks(r.dbg.bps[bp]) {
        assert r.dbg.bps[bp := r.dbg.bps[bp]] == r.dbg.bps;
      } else {
        TogglePatched(r.dbg.bps, bp, r.dbg.proc.mem, n.mem);
      }
    }
  }

  lemma ResumeAndWaitLinked(cpu: Cpu, d: Dbg, mode: Mode, step: bool, n: Proc, patches: set<int>, detours: bool)
    returns (moves: seq<Move>)
    requires WellBehaved(cpu) && Safe(cpu, n, patches, detours) && d.signum < 128
    requires Linked(d.bps, d.proc, n) && Covers(d.bps, patches)
    requires step ==> mode == Single && !IsBreakpoint(d.bps, d.proc.regs.rip)
    ensures var d' := WaitProgram(cpu, Resume(cpu, d, mode), step).dbg;
            detours || !Misfired(d'.trace) ==> Reaches(cpu, d, d', n, moves, patches)
    decreases |d.events|, 1
  {
    hide WellBehaved, Safe, Misfired, Patched, Covers, Misfires;
    SafeRespectful(cpu, n, patches, detours);
    moves := ResumeLinked(cpu, d, mode, n, patches);
    var d1 := Resume(cpu, d, mode);
    SafeLater(cpu, n, moves, patches, detours);
    var more := WaitLinked(cpu, d1, step, Course(cpu, n, moves), patches, detours, d.signum != 0);
    var d2 := WaitProgram(cpu, d1, step).dbg;
    if detours || !Misfired(d2.trace) {
      ReachesTrans(cpu, d, d1, d2, n, moves, more, patches, step && d.signum != 0);
    }
    moves := moves + more;
  }

  lemma {:induction false} StepLinked(cpu: Cpu, d: Dbg, n: Proc, patches: set<int>, detours: bool)
    returns (moves: seq<Move>)
    requires WellBehaved(cpu) && Safe(cpu, n, patches, detours) && d.signum < 128
    requires Linked(d.bps, d.proc, n) && Covers(d.bps, patches)
    ensures var d' := SingleStep(cpu, d).dbg;
            detours || !Misfired(d'.trace) ==> Reaches(cpu, d, d', n, moves, patches)
    decreases |d.events|, 2
  {
    hide WellBehaved, Safe, Misfired, Patched, Covers, WaitProgram;
    LiftedLinked(d, n, patches);
    LiftedNotLive(d) by { LinkedDistinct(d, n); }
    moves := ResumeAndWaitLinked(cpu, Lifted(d), Single, true, n, patches, detours);
    var d1 := Resume(cpu, Lifted(d), Single);
    var r := WaitProgram(cpu, d1, true);
    if detours || !Misfired(r.dbg.trace) {
      WaitEvolves(cpu, d1, true);
      RestoredLinked(d, r, Course(cpu, n, moves), patches);
    }
  }

  lemma {:induction false} ContinueLinked(cpu: Cpu, d: Dbg, n: Proc, patches: set<int>, detours: bool)
    returns (moves: seq<Move>)
    requires WellBehaved(cpu) && Safe(cpu, n, patches, detours) && d.signum < 128
    requires Linked(d.bps, d.proc, n) && Covers(d.bps, patches)
    ensures var d' := ContinueExecution(cpu, d).dbg;
            detours || !Misfired(d'.trace) ==> Reaches(cpu, d, d', n, moves, patches)
    decreases |d.events|, 3
  {
    hide WellBehaved, Safe, Misfired, Patched, Covers, WaitProgram, SingleStep, GetBreakpoint;
    var mode := if d.watch != [] then Sysc else Cont;
    if IsBreakpoint(d.bps, d.proc.regs.rip) {
      moves := StepLinked(cpu, d, n, patches, detours);
      var r := SingleStep(cpu, d);
      var d' := ContinueExecution(cpu, d).dbg;
      if r.value && (detours || !Misfired(d'.trace)) {
        StillClean(r.dbg.trace, d'.trace);
        if !detours { NoDetours(cpu, d, r.dbg, n, moves, patches); }
        SafeLater(cpu, n, moves, patches, detours);
        var more := ResumeAndWaitLinked(cpu, r.dbg, mode, false, Course(cpu, n, moves), patches, detours);
        ReachesTrans(cpu, d, r.dbg, d', n, moves, more, patches);
        moves := moves + more;
      }
    } else {
      moves := ResumeAndWaitLinked(cpu, d, mode, false, n, patches, detours);
    }
  }

  // ---- Sessions ----

  /** Breakpoints are placed where none is armed, and only those that are not patched in are
      deleted, inside of the watch array or not: `PlaceKeepsPatchedIff` and
      `DeleteKeepsPatchedIff` say why. */
  ghost predicate Sound(d: Dbg, c: Cmd, patches: set<int>) {
    match c
    case Place(addr, _, _) => addr in patches && !Taken(d.bps, addr)
    case Delete(id) => 0 < id <= |d.bps| ==> !Live(d.bps[id - 1])
    case _ => true
  }

  ghost predicate SoundSession(cpu: Cpu, d: Dbg, cmds: seq<Cmd>, patches: set<int>)
    requires d.signum < 128
    decreases |cmds|
  {
    cmds == [] || d.quit ||
    (&& Sound(d, cmds[0], patches)
     && (!Overruns(d, cmds[0]) ==> SoundSession(cpu, Apply(cpu, d, cmds[0]), cmds[1..], patches)))
  }

  lemma WatchPatched(bps: seq<Bp>, bp: Bp, mem: Memory, native: Memory)
    requires Patched(bps, mem, native) && bp.syscall
    ensures Patched(bps + [bp], mem, native)
  {
    var bps' := bps + [bp];
    forall a ensures IsBreakpoint(bps', a) == IsBreakpoint(bps, a) {
      var j := GetBreakpoint(bps, a);
      assert j != -1 ==> LiveAt(bps'[j], a);
    }
    assert forall i :: 0 <= i < |bps'| && Armed(bps'[i]) ==> i < |bps| && bps'[i] == bps[i];
  }

  lemma DeleteLinked(d: Dbg, id: nat, n: Proc, patches: set<int>)
    requires !BreakDel(d, id).Refused? && !Live(d.bps[id - 1])
    requires Linked(d.bps, d.proc, n) && Covers(d.bps, patches)
    ensures var d' := BreakDel(d, id).dbg; Linked(d'.bps, d'.proc, n) && Covers(d'.bps, patches)
  {
    DeleteKeepsPatchedIff(d.bps, id - 1, d.proc.mem, n.mem);
  }

  lemma WatchLinked(d: Dbg, syscall: int, n: Proc, patches: set<int>)
    requires Linked(d.bps, d.proc, n) && Covers(d.bps, patches)
    ensures var d' := AddSyscallBreak(d, syscall); Linked(d'.bps, d'.proc, n) && Covers(d'.bps, patches)
  {
    WatchPatched(d.bps, AddSyscallBreak(d, syscall).bps[|d.bps|], d.proc.mem, n.mem);
  }

  lemma PlaceLinked(d: Dbg, addr: int, temp: bool, hidden: bool, n: Proc, patches: set<int>)
    requires addr in patches && !Taken(d.bps, addr)
    requires Linked(d.bps, d.proc, n) && Covers(d.bps, patches)
    ensures var d' := PlaceBreakpoint(d, addr, temp, hidden); Linked(d'.bps, d'.proc, n) && Covers(d'.bps, patches)
  {
    PlaceKeepsPatchedIff(d.bps, d.proc.mem, n.mem, addr, temp, hidden);
  }

  lemma TableLinked(d: Dbg, c: Cmd, cpu: Cpu, n: Proc, patches: set<int>)
    requires d.signum < 128 && Sound(d, c, patches) && !c.StepInstr? && !c.Continue?
    requires Linked(d.bps, d.proc, n) && Covers(d.bps, patches)
    ensures Reaches(cpu, d, Apply(cpu, d, c), n, [], patches) && Course(cpu, n, []) == n
  {
    match c {
      case Place(addr, temp, hidden) => PlaceLinked(d, addr, temp, hidden, n, patches);
      case Watch(syscall) => WatchLinked(d, syscall, n, patches);
      case Delete(id) => if !BreakDel(d, id).Refused? { DeleteLinked(d, id, n, patches); }
    }
    hide Linked, Covers;
    ReachesNowhere(cpu, d, Apply(cpu, d, c), n, patches);
  }

  lemma StartLinked(p: Proc)
    ensures Linked([], p, p)
  {
  }

  /** After any sound session, whatever has misfired, the debugged process is in the state that the
      program reaches by itself in some number of acts and one detour for each misfire, back onto a
      patched address or past one that a signal has led to, with the same signals delivered in the
      same order, up to the int3s at live breakpoints. */
  lemma {:induction false} Followed(cpu: Cpu, d: Dbg, cmds: seq<Cmd>, n: Proc, patches: set<int>, detours: bool)
    returns (moves: seq<Move>)
    requires WellBehaved(cpu) && Safe(cpu, n, patches, detours) && d.signum < 128
    requires Linked(d.bps, d.proc, n) && Covers(d.bps, patches)
    requires SoundSession(cpu, d, cmds, patches)
    requires detours || !Misfired(Session(cpu, d, cmds).trace)
    ensures Reaches(cpu, d, Session(cpu, d, cmds), n, moves, patches)
    decreases |cmds|
  {
    hide WellBehaved, Safe, Covers, Patched, Misfired, SingleStep, ContinueExecution;
    moves := [];
    ReachesNowhere(cpu, d, d, n, patches);
    if cmds != [] && !d.quit {
      var d1, d2 := Apply(cpu, d, cmds[0]), Session(cpu, d, cmds);
      StillClean(d1.trace, d2.trace);
      match cmds[0] {
        case StepInstr => moves := StepLinked(cpu, d, n, patches, detours);
        case Continue => moves := ContinueLinked(cpu, d, n, patches, detours);
        case _ => TableLinked(d, cmds[0], cpu, n, patches);
      }
      if !Overruns(d, cmds[0]) {
        if !detours { NoDetours(cpu, d, d1, n, moves, patches); }
        SafeLater(cpu, n, moves, patches, detours);
        var more := Followed(cpu, d1, cmds[1..], Course(cpu, n, moves), patches, detours);
        ReachesTrans(cpu, d, d1, d2, n, moves, more, patches);
        moves := moves + more;
      }
    }
  }

  /** The main result: after any sound session in which no stop misfired, the debugged process is
      in the state that the program reaches by itself in some number of instructions, with the
      same signals delivered to it in the same order, up to the int3s at live breakpoints. */
  lemma Transparent(cpu: Cpu, d: Dbg, cmds: seq<Cmd>, n: Proc, patches: set<int>) returns (acts: seq<Act>)
    requires WellBehaved(cpu) && Respectful(cpu, n, patches) && d.signum < 128
    requires Linked(d.bps, d.proc, n) && Covers(d.bps, patches)
    requires SoundSession(cpu, d, cmds, patches)
    requires !Misfired(Session(cpu, d, cmds).trace)
    ensures var d' := Session(cpu, d, cmds);
            && Linked(d'.bps, d'.proc, Native(cpu, n, acts)) && Covers(d'.bps, patches)
            && Injections(d'.trace) == Injections(d.trace) + Delivered(acts)
  {
    hide WellBehaved, Respectful, Safe, Covers, Patched, Misfired, SoundSession, Session;
    RespectfulSafe(cpu, n, patches);
    var moves := Followed(cpu, d, cmds, n, patches, false);
    NoDetours(cpu, d, Session(cpu, d, cmds), n, moves, patches);
    CourseNative(cpu, n, moves);
    acts := Acts(moves);
  }

  /** From the start of the debugger on. */
  lemma TransparentFromStart(cpu: Cpu, p: Proc, events: seq<Event>, cmds: seq<Cmd>, patches: set<int>)
    returns (acts: seq<Act>)
    requires WellBehaved(cpu) && Respectful(cpu, p, patches)
    requires SoundSession(cpu, Started(p, events), cmds, patches)
    requires !Misfired(Session(cpu, Started(p, events), cmds).trace)
    ensures var d := Session(cpu, Started(p, events), cmds);
            && Linked(d.bps, d.proc, Native(cpu, p, acts))
            && Injections(d.trace) == Delivered(acts)
  {
    StartLinked(p);
    acts := Transparent(cpu, Started(p, events), cmds, p, patches);
    assert [] + Delivered(acts) == Delivered(acts);
  }
}
