/** The debugger itself: its globals, and the functions that update them. */
module Debugger {
  import opened Tracee
  import Spec = Breakpoints
  import opened Commands

  class Debugger {
    const cpu: Cpu

    var bps: seq<Spec.Bp>
    var watch: seq<int>
    var signum: nat
    var entry: bool
    var quit: bool

    // The process, how it was last resumed, and what is still going to happen to it.
    var proc: Proc
    var mode: Mode
    var events: seq<Event>

    var trace: seq<Note>

    ghost function View(): Dbg
      reads this
    {
      Dbg(bps, watch, signum, entry, quit, mode, proc, events, trace)
    }

    constructor (cpu: Cpu, proc: Proc, events: seq<Event>)
      ensures View() == Started(proc, events)
      ensures this.cpu == cpu
    {
      this.cpu, this.proc, this.mode, this.events := cpu, proc, Cont, events;
      bps, watch, signum, entry, quit, trace := [], [], 0, false, false, [];
    }

    /** The first live breakpoint at the address, or -1. */
    method GetBreakpoint(addr: int) returns (r: int)
      ensures r == Spec.GetBreakpoint(bps, addr)
    {
      var i := 0;
      while i < |bps|
        invariant 0 <= i <= |bps|
        invariant Spec.GetBreakpoint(bps, addr) == Spec.GetBreakpoint(bps, addr, i)
      {
        var bp := bps[i];
        if bp.addr == addr && bp.enabled && !bp.deleted && !bp.syscall { return i; }
        i := i + 1;
      }
      return -1;
    }

    method ToggleBreakpoint(i: nat)
      requires i < |bps|
      modifies this`bps, this`proc
      ensures View() == Toggle(old(View()), i)
    {
      var bp := bps[i];
      if !bp.enabled && bp.temp {
        assert bps[i := bp] == bps;
        return;
      }
      var word := Spec.Peek(proc.mem, bp.addr, 8);
      word := word - word % 256;
      if !bp.enabled {
        word := word + INT3;
      } else {
        word := word + bp.word % 256;
      }
      proc := proc.(mem := Spec.Poke(proc.mem, bp.addr, word, 8));
      bps := bps[i := bp.(enabled := !bp.enabled)];
    }

    method PlaceBreakpoint(addr: int, temp: bool, hidden: bool) returns (id: nat)
      modifies this`bps, this`proc
      ensures View() == Commands.PlaceBreakpoint(old(View()), addr, temp, hidden) && id == |bps|
    {
      var word := Spec.Peek(proc.mem, addr, 8);
      var patched := word - word % 256 + INT3;
      proc := proc.(mem := Spec.Poke(proc.mem, addr, patched, 8));
      bps := bps + [Spec.Bp(|bps| + 1, temp, hidden, false, addr, word, true, false)];
      id := |bps|;
    }

    method AddSyscallBreak(syscall: int)
      modifies this`bps, this`watch
      ensures View() == Commands.AddSyscallBreak(old(View()), syscall)
    {
      watch := watch + [syscall];
      bps := bps + [Spec.Bp(|bps| + 1, false, false, true, syscall, |watch| - 1, true, false)];
    }

    method InSyscalls(syscall: int) returns (r: bool)
      ensures r == Commands.InSyscalls(watch, syscall)
    {
      if syscall == -1 { return false; }
      var i := 0;
      while i < |watch|
        invariant 0 <= i <= |watch|
        invariant syscall !in watch[..i]
      {
        if syscall == watch[i] { return true; }
        i := i + 1;
      }
      return false;
    }

    /** Answers whether the command succeeded; with `overrun` the breakpoint has been marked, and
        the next store would be outside of the watch array: the model stops short of that one. */
    method BreakDel(id: nat) returns (done: bool, overrun: bool)
      modifies this`bps, this`watch
      ensures match Commands.BreakDel(old(View()), id)
              case Refused => !done && !overrun && View() == old(View())
              case Overrun(d) => !done && overrun && View() == d
              case Deleted(d) => done && !overrun && View() == d
    {
      if id == 0 || id > |bps| { return false, false; }
      var bp := bps[id - 1];
      if bp.deleted { return false, false; }
      bps := bps[id - 1 := bp.(deleted := true)];
      if bp.word >= |watch| { return false, true; }
      watch := watch[bp.word := -1];
      return true, false;
    }

    method Resume(mode: Mode)
      requires signum < 128
      modifies this`proc, this`trace, this`mode, this`signum
      ensures View() == Commands.Resume(cpu, old(View()), mode)
    {
      this.mode := mode;
      if signum != 0 {
        proc := Exec(cpu, Deliver(signum), proc);
        trace := trace + [Injected(signum)];
      }
      signum := 0;
    }

    /** A stop one byte after a live breakpoint is taken for a hit. */
    method LandOn(i: nat)
      requires i < |bps| && signum < 128
      modifies this`bps, this`proc, this`signum
      ensures View() == Landed(old(View()), i)
    {
      var addr := proc.regs.rip - 1;
      ghost var d := View();
      if bps[i].temp {
        ToggleBreakpoint(i);
        assert bps == View().bps == Toggle(d, i).bps && proc == View().proc == Toggle(d, i).proc;
      }
      proc := proc.(regs := proc.regs.(rip := addr));
      if signum == SIGTRAP { signum := 0; }
    }

    /** Answers whether this is the entry of a watched call, as far as `entry` can tell. */
    method CountSyscallStop() returns (watched: bool)
      modifies this`signum, this`entry
      ensures View() == old(View()).(signum := 0, entry := !old(entry))
      ensures watched == (Commands.InSyscalls(watch, ToInt(proc.regs.origRax)) && entry)
    {
      signum := 0;
      entry := !entry;
      watched := InSyscalls(ToInt(proc.regs.origRax));
      watched := watched && entry;
    }

    /** A stop that is not the end of a step. */
    method Interrupted(bp: int, atSyscall: bool) returns (again: bool)
      requires -1 <= bp < |bps| && signum < 128
      modifies this`bps, this`proc, this`signum, this`entry
      ensures var h := Interrupt(old(View()), bp, atSyscall); View() == h.dbg && again == h.again
    {
      hide Landed, ToInt, Commands.InSyscalls;
      again := false;
      if bp != -1 { LandOn(bp); }
      if atSyscall {
        var watched := CountSyscallStop();
        again := !watched && bp == -1;
      }
    }

    /** The part of `wait_program` after the wait; with `again` it goes on to `continue_execution`. */
    method HandleStop(stop: Stop, step: bool, fromSyscall: bool) returns (value: bool, again: bool)
      requires signum == 0
      modifies this
      ensures View() == Handle(old(View()), stop, step, fromSyscall).dbg
      ensures value == Handle(old(View()), stop, step, fromSyscall).value
      ensures again == Handle(old(View()), stop, step, fromSyscall).again
    {
      hide Interrupt, Spec.GetBreakpoint, Extends;
      value, again := false, false;
      if stop.Ended? {
        trace := trace + [Reported(stop, proc.regs, step, fromSyscall, false)];
        quit := true;
        return;
      }
      var addr := proc.regs.rip - 1;
      var bp := GetBreakpoint(addr);
      trace := trace + [Reported(stop, proc.regs, step, fromSyscall, bp != -1)];
      signum := Status(stop) % 0x80;
      if step && signum == SIGTRAP {
        signum := 0;
        value := true;
        return;
      }
      again := Interrupted(bp, Status(stop) >= 0x80);
    }

    method WaitProgram(step: bool) returns (value: bool, threw: bool)
      requires signum == 0
      modifies this
      ensures Result(View(), value, threw) == Commands.WaitProgram(cpu, old(View()), step)
      decreases |events|, 0
    {
      if events == [] { return false, true; }
      var fromSyscall := proc.regs.inSyscall;
      var (p, stop) := KernelRun(cpu, mode, proc, events[0]);
      proc, events := p, events[1..];
      assert (View(), stop) == Awaited(cpu, old(View()));
      var again;
      value, again := HandleStop(stop, step, fromSyscall);
      threw := false;
      if again {
        threw := ContinueExecution();
        value := false;
      }
    }

    method SingleStep() returns (value: bool, threw: bool)
      requires signum < 128
      modifies this
      ensures Result(View(), value, threw) == Commands.SingleStep(cpu, old(View()))
      decreases |events|, 1
    {
      var bp := GetBreakpoint(proc.regs.rip);
      if bp != -1 { ToggleBreakpoint(bp); }
      assert View() == Lifted(old(View()));
      Resume(Single);
      value, threw := WaitProgram(true);
      if !threw && bp != -1 {
        if quit && !(!bps[bp].enabled && bps[bp].temp) { return false, true; }
        ToggleBreakpoint(bp);
      }
    }

    method ContinueExecution() returns (threw: bool)
      requires signum < 128
      modifies this
      ensures threw == Commands.ContinueExecution(cpu, old(View())).threw
      ensures View() == Commands.ContinueExecution(cpu, old(View())).dbg
      decreases |events|, 2
    {
      var bp := GetBreakpoint(proc.regs.rip);
      if bp != -1 {
        var stepped, threw' := SingleStep();
        if threw' || !stepped { return threw'; }
      }
      Resume(if watch != [] then Sysc else Cont);
      var _, threw' := WaitProgram(false);
      threw := threw';
    }
  }
}
