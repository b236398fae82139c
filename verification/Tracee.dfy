/**
 The debugged process and the kernel that runs it for the debugger.

 The processor is an arbitrary deterministic function; the only things known about it are
 stated by `WellBehaved`. The kernel is driven by a list of events, one for each wait: every
 list is a possible behaviour, so a statement over all lists is one over all behaviours.
 */
module Tracee {

  import opened Bytes

  const INT3: Byte := 0xCC
  const SIGTRAP: nat := 5

  /** `inSyscall` holds between the entry and the exit of a system call. */
  datatype Regs = Regs(rip: int, origRax: int, inSyscall: bool, rest: seq<int>)

  type Memory = map<int, Byte>

  function Rd(m: Memory, a: int): Byte {
    if a in m then m[a] else 0
  }

  datatype Proc = Proc(regs: Regs, mem: Memory)

  type Signo = s: nat | 1 <= s < 128 witness 1

  /** What can happen to a process: one instruction (or half of a system call), or a signal. */
  datatype Act = Step | Deliver(sig: Signo)

  datatype Effect = Effect(regs: Regs, writes: Memory)

  datatype Cpu = Cpu(effect: (Act, Regs, Memory) -> Effect, touches: (Act, Regs, Memory) -> set<int>)

  /** What an act does depends on the bytes it touches only; a system call returns in one step. */
  ghost predicate WellBehaved(cpu: Cpu) {
    && (forall act: Act, r: Regs, m: Memory, m': Memory {:trigger cpu.effect(act, r, m), cpu.effect(act, r, m')} ::
          (forall a :: a in cpu.touches(act, r, m) ==> Rd(m, a) == Rd(m', a))
          ==> cpu.effect(act, r, m') == cpu.effect(act, r, m))
    && (forall act: Act, r: Regs, m: Memory {:trigger cpu.effect(act, r, m)} ::
          r.inSyscall || act.Deliver? ==> !cpu.effect(act, r, m).regs.inSyscall)
  }

  predicate AtInt3(p: Proc) {
    !p.regs.inSyscall && Rd(p.mem, p.regs.rip) == INT3
  }

  function Exec(cpu: Cpu, act: Act, p: Proc): Proc {
    if act.Step? && AtInt3(p) then
      p.(regs := p.regs.(rip := p.regs.rip + 1))
    else
      var e := cpu.effect(act, p.regs, p.mem);
      Proc(e.regs, p.mem + e.writes)
  }

  /** A run of a process that nobody debugs. */
  function Native(cpu: Cpu, n: Proc, acts: seq<Act>): Proc
    decreases |acts|
  {
    if acts == [] then n else Native(cpu, Exec(cpu, acts[0], n), acts[1..])
  }

  lemma {:induction false} NativeAppend(cpu: Cpu, n: Proc, a: seq<Act>, b: seq<Act>)
    ensures Native(cpu, n, a + b) == Native(cpu, Native(cpu, n, a), b)
    decreases |a|
  {
    if a == [] {
      assert a + b == b;
    } else {
      assert (a + b)[1..] == a[1..] + b;
      NativeAppend(cpu, Exec(cpu, a[0], n), a[1..], b);
    }
  }

  /** A whole instruction: a system call is entered and left. */
  function Instr(cpu: Cpu, p: Proc): Proc {
    var q := Exec(cpu, Step, p);
    if q.regs.inSyscall && !p.regs.inSyscall then Exec(cpu, Step, q) else q
  }

  function Steps(cpu: Cpu, p: Proc, k: nat): Proc
    decreases k
  {
    if k == 0 then p else Steps(cpu, Exec(cpu, Step, p), k - 1)
  }

  /** PTRACE_SINGLESTEP, PTRACE_CONT and PTRACE_SYSCALL. */
  datatype Mode = Single | Cont | Sysc

  datatype Async = Signal(sig: Signo) | Exited | Killed

  /** After `budget` steps `async` happens, unless the process has stopped before. */
  datatype Event = Event(budget: nat, async: Async)

  /** Why the process stopped; the debugger sees `Status` only. */
  datatype Stop = Break | Stepped | SyscallStop | External(sig: Signo) | Ended

  /** WSTOPSIG, with the 0x80 bit that PTRACE_O_TRACESYSGOOD adds to system call stops. */
  function Status(stop: Stop): nat
    requires !stop.Ended?
  {
    match stop
    case Break => SIGTRAP
    case Stepped => SIGTRAP
    case SyscallStop => SIGTRAP + 0x80
    case External(sig) => sig
  }

  function Happened(async: Async): Stop {
    match async
    case Signal(sig) => External(sig)
    case Exited => Ended
    case Killed => Ended
  }

  /** PTRACE_SYSCALL can stop in the middle of a system call, the other two cannot. */
  function Advance(cpu: Cpu, mode: Mode, p: Proc): Proc {
    if mode == Sysc then Exec(cpu, Step, p) else Instr(cpu, p)
  }

  function Run(cpu: Cpu, mode: Mode, p: Proc, budget: nat, async: Async): (Proc, Stop)
    decreases budget
  {
    if budget == 0 then
      (p, Happened(async))
    else if AtInt3(p) then
      (Exec(cpu, Step, p), Break)
    else
      var q := Advance(cpu, mode, p);
      if mode == Sysc && q.regs.inSyscall != p.regs.inSyscall then (q, SyscallStop)
      else if mode == Single && budget > 1 then (q, Stepped)
      else Run(cpu, mode, q, budget - 1, async)
  }

  /** A system call that has been entered is finished before a signal is reported. */
  function KernelRun(cpu: Cpu, mode: Mode, p: Proc, ev: Event): (Proc, Stop) {
    Run(cpu, mode, p, if ev.budget == 0 && p.regs.inSyscall && ev.async.Signal? then 1 else ev.budget, ev.async)
  }
}
