/**
 What the debugger's run loop and its commands do, as functions on the whole state.

 A wait with no event left is a wait that fails: `my_wait` throws WaitException, which leaves
 every function on the way without running the rest of it.
 */
module Commands {
  import opened Tracee
  import opened Breakpoints

  /** `trace` records what went over the ptrace interface, oldest first; `regs` are the registers
      at the stop. */
  datatype Note =
    | Injected(sig: Signo)
    | Reported(stop: Stop, regs: Regs, stepping: bool, fromSyscall: bool, atBreakpoint: bool)

  ghost predicate Extends(t: seq<Note>, t': seq<Note>) {
    |t| <= |t'| && forall i :: 0 <= i < |t| ==> t'[i] == t[i]
  }

  datatype Dbg = Dbg(
    bps: seq<Bp>,
    watch: seq<int>,
    signum: nat,
    entry: bool,
    quit: bool,
    mode: Mode,
    proc: Proc,
    events: seq<Event>,
    trace: seq<Note>)

  /** The debugger before its first command. */
  function Started(p: Proc, events: seq<Event>): Dbg {
    Dbg([], [], 0, false, false, Cont, p, events, [])
  }

  datatype Result = Result(dbg: Dbg, value: bool, threw: bool)

  /** Conversion of a 64-bit register to int. */
  function ToInt(x: int): (r: int)
    ensures -0x8000_0000 <= r < 0x8000_0000 && (x - r) % 0x1_0000_0000 == 0
  {
    (x + 0x8000_0000) % 0x1_0000_0000 - 0x8000_0000
  }

  predicate InSyscalls(watch: seq<int>, syscall: int) {
    syscall != -1 && syscall in watch
  }

  function Toggle(d: Dbg, i: nat): Dbg
    requires i < |d.bps|
  {
    d.(bps := d.bps[i := ToggledBp(d.bps[i])], proc := d.proc.(mem := ToggledMemory(d.proc.mem, d.bps[i])))
  }

  function Resume(cpu: Cpu, d: Dbg, mode: Mode): (d': Dbg)
    requires d.signum < 128
    ensures d' == d.(mode := mode, signum := 0, proc := d'.proc, trace := d'.trace)
    ensures Extends(d.trace, d'.trace)
  {
    if d.signum == 0 then d.(mode := mode)
    else
      d.(mode := mode, signum := 0, proc := Exec(cpu, Deliver(d.signum), d.proc),
      trace := d.trace + [Injected(d.signum)])
  }

  /** Stopping at a live breakpoint: a temporary one is taken out, and RIP goes back to it. */
  function AtBreakpoint(bps: seq<Bp>, p: Proc, i: nat): (r: (seq<Bp>, Proc))
    requires i < |bps|
    ensures |r.0| == |bps|
  {
    var regs := p.regs.(rip := p.regs.rip - 1);
    if bps[i].temp then (bps[i := ToggledBp(bps[i])], Proc(regs, ToggledMemory(p.mem, bps[i])))
    else (bps, p.(regs := regs))
  }

  /** The stop is taken for a hit of breakpoint `i`, and its SIGTRAP for the debugger's. */
  function Landed(d: Dbg, i: nat): (d': Dbg)
    requires i < |d.bps| && d.signum < 128
    ensures d' == d.(bps := d'.bps, proc := d'.proc, signum := if d.signum == SIGTRAP then 0 else d.signum)
    ensures |d'.bps| == |d.bps|
  {
    var (bps, proc) := AtBreakpoint(d.bps, d.proc, i);
    d.(bps := bps, proc := proc, signum := if d.signum == SIGTRAP then 0 else d.signum)
  }

  /** The stop that the first event leads to, before the debugger looks at it. */
  function Awaited(cpu: Cpu, d: Dbg): (r: (Dbg, Stop))
    requires d.events != []
    ensures r.0.events == d.events[1..] && r.0 == d.(proc := r.0.proc, events := r.0.events)
  {
    var (p, stop) := KernelRun(cpu, d.mode, d.proc, d.events[0]);
    (d.(proc := p, events := d.events[1..]), stop)
  }

  datatype Handled = Handled(dbg: Dbg, value: bool, again: bool)

  /** A stop that is not the end of a step, with breakpoint `bp` one byte before RIP, or -1. */
  function Interrupt(d: Dbg, bp: int, atSyscall: bool): (h: Handled)
    requires -1 <= bp < |d.bps| && d.signum < 128
    ensures h.dbg == d.(bps := h.dbg.bps, proc := h.dbg.proc, signum := h.dbg.signum, entry := h.dbg.entry)
    ensures !h.value && (h.again ==> h.dbg.signum == 0) && h.dbg.signum < 128 && |h.dbg.bps| == |d.bps|
  {
    var d1 := if bp != -1 then Landed(d, bp) else d;
    if atSyscall then
      var d2 := d1.(signum := 0, entry := !d1.entry);
      var watched := InSyscalls(d2.watch, ToInt(d2.proc.regs.origRax)) && d2.entry;
      Handled(d2, false, !watched && bp == -1)
    else
      Handled(d1, false, false)
  }

  /** What `wait_program` makes of a stop; `again` if it calls `continue_execution` after that. */
  function Handle(d: Dbg, stop: Stop, step: bool, fromSyscall: bool): (h: Handled)
    requires d.signum == 0
    ensures h.dbg.signum < 128 && h.dbg.events == d.events && |h.dbg.bps| == |d.bps| && h.dbg.watch == d.watch
    ensures |h.dbg.trace| == |d.trace| + 1 && Extends(d.trace, h.dbg.trace)
    ensures h.value || h.again ==> h.dbg.signum == 0 && h.dbg.quit == d.quit
  {
    if stop.Ended? then
      var note := Reported(stop, d.proc.regs, step, fromSyscall, false);
      Handled(d.(quit := true, trace := d.trace + [note]), false, false)
    else
      var bp := GetBreakpoint(d.bps, d.proc.regs.rip - 1);
      var signum := Status(stop) % 0x80;
      var d1 := d.(trace := d.trace + [Reported(stop, d.proc.regs, step, fromSyscall, bp != -1)]);
      if step && signum == SIGTRAP then Handled(d1, true, false)
      else
        Interrupt(d1.(signum := signum), bp, Status(stop) >= 0x80)
  }

  function WaitProgram(cpu: Cpu, d: Dbg, step: bool): (r: Result)
    requires d.signum == 0
    ensures r.dbg.signum < 128
    ensures r.value ==> !r.threw && r.dbg.signum == 0 && r.dbg.quit == d.quit
    ensures |r.dbg.events| <= |d.events| && (!r.threw ==> |r.dbg.events| < |d.events|)
    ensures |r.dbg.bps| == |d.bps| && r.dbg.watch == d.watch
    ensures Extends(d.trace, r.dbg.trace)
    decreases |d.events|, 0
  {
    if d.events == [] then Result(d, false, true)
    else
      var (d1, stop) := Awaited(cpu, d);
      var h := Handle(d1, stop, step, d.proc.regs.inSyscall);
      if h.again then
        var r := ContinueExecution(cpu, h.dbg);
        Result(r.dbg, false, r.threw)
      else
        Result(h.dbg, h.value, false)
  }

  /** The breakpoint that a step starts from is out while the step runs. */
  function Lifted(d: Dbg): (d': Dbg)
    ensures d' == d.(bps := d'.bps, proc := d'.proc) && |d'.bps| == |d.bps|
  {
    var bp := GetBreakpoint(d.bps, d.proc.regs.rip);
    if bp != -1 then Toggle(d, bp) else d
  }

  /** It comes back after the wait; after the end of the process this fails with PtraceException. */
  function Restored(r: Result, bp: int): (r': Result)
    requires -1 <= bp < |r.dbg.bps|
    ensures r'.dbg == r.dbg.(bps := r'.dbg.bps, proc := r'.dbg.proc) && |r'.dbg.bps| == |r.dbg.bps|
    ensures r.threw ==> r'.threw
    ensures (r.value ==> !r.threw) ==> (r'.value ==> r.value && !r'.threw)
  {
    if r.threw || bp == -1 then r
    else if r.dbg.quit && !Sticks(r.dbg.bps[bp]) then Result(r.dbg, false, true)
    else Result(Toggle(r.dbg, bp), r.value, false)
  }

  function SingleStep(cpu: Cpu, d: Dbg): (r: Result)
    requires d.signum < 128
    ensures r.dbg.signum < 128
    ensures |r.dbg.events| <= |d.events| && (!r.threw ==> |r.dbg.events| < |d.events|)
    ensures r.value ==> !r.threw && r.dbg.signum == 0 && r.dbg.quit == d.quit
    ensures |r.dbg.bps| == |d.bps| && r.dbg.watch == d.watch
    ensures Extends(d.trace, r.dbg.trace)
    decreases |d.events|, 1
  {
    var r := WaitProgram(cpu, Resume(cpu, Lifted(d), Single), true);
    Restored(r, GetBreakpoint(d.bps, d.proc.regs.rip))
  }

  function ContinueExecution(cpu: Cpu, d: Dbg): (r: Result)
    requires d.signum < 128
    ensures r.dbg.signum < 128
    ensures |r.dbg.events| <= |d.events| && (!r.threw ==> |r.dbg.events| < |d.events|)
    ensures |r.dbg.bps| == |d.bps| && r.dbg.watch == d.watch
    ensures Extends(d.trace, r.dbg.trace)
    decreases |d.events|, 2
  {
    if IsBreakpoint(d.bps, d.proc.regs.rip) then
      var r := SingleStep(cpu, d);
      if r.threw || !r.value then Result(r.dbg, false, r.threw)
      else WaitProgram(cpu, Resume(cpu, r.dbg, if d.watch != [] then Sysc else Cont), false)
    else
      WaitProgram(cpu, Resume(cpu, d, if d.watch != [] then Sysc else Cont), false)
  }

  // ---- Placing and deleting ----

  function PlaceBreakpoint(d: Dbg, addr: int, temp: bool, hidden: bool): Dbg {
    d.(bps := d.bps + [Placed(d.bps, d.proc.mem, addr, temp, hidden)],
    proc := d.proc.(mem := PlacedMemory(d.proc.mem, addr)))
  }

  function AddSyscallBreak(d: Dbg, syscall: int): Dbg {
    d.(watch := d.watch + [syscall],
    bps := d.bps + [Bp(|d.bps| + 1, false, false, true, syscall, |d.watch|, true, false)])
  }

  /** `Overrun`: the breakpoint is marked, and the store that follows is outside of the watch array. */
  datatype Deletion = Refused | Overrun(dbg: Dbg) | Deleted(dbg: Dbg)

  function BreakDel(d: Dbg, id: nat): Deletion {
    if id == 0 || id > |d.bps| || d.bps[id - 1].deleted then Refused
    else
      var bp := d.bps[id - 1];
      var d1 := d.(bps := d.bps[id - 1 := bp.(deleted := true)]);
      if bp.word < |d.watch| then Deleted(d1.(watch := d.watch[bp.word := -1])) else Overrun(d1)
  }

  // ---- Whole sessions ----

  /** tbreak, break, next_instr and finish place; next_instr and finish then step or continue. */
  datatype Cmd =
    | Place(addr: int, temp: bool, hidden: bool)
    | Watch(syscall: int)
    | Delete(id: nat)
    | StepInstr
    | Continue

  function Apply(cpu: Cpu, d: Dbg, c: Cmd): (d': Dbg)
    requires d.signum < 128
    ensures d'.signum < 128
    ensures Extends(d.trace, d'.trace)
  {
    match c
    case Place(addr, temp, hidden) => PlaceBreakpoint(d, addr, temp, hidden)
    case Watch(syscall) => AddSyscallBreak(d, syscall)
    case Delete(id) => (var r := BreakDel(d, id); if r.Refused? then d else r.dbg)
    case StepInstr => SingleStep(cpu, d).dbg
    case Continue => ContinueExecution(cpu, d).dbg
  }

  predicate Overruns(d: Dbg, c: Cmd) {
    c.Delete? && BreakDel(d, c.id).Overrun?
  }

  /** The prompt takes no further command once `quit` is set; a store outside of the watch array
      ends the session at that store, since nothing is known of what comes after it. */
  function Session(cpu: Cpu, d: Dbg, cmds: seq<Cmd>): (d': Dbg)
    requires d.signum < 128
    ensures d'.signum < 128
    ensures Extends(d.trace, d'.trace)
    decreases |cmds|
  {
    if cmds == [] || d.quit then d
    else
      var d1 := Apply(cpu, d, cmds[0]);
      if Overruns(d, cmds[0]) then d1 else Session(cpu, d1, cmds[1..])
  }
}
