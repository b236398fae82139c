/** Sessions in which nothing can misfire. */
module Quiet {
  import opened Tracee
  import opened Breakpoints
  import opened Commands
  import opened Transparency
  import opened Stops
  import opened Onlooker
  import OneShot

  lemma {:induction false} StepsAdd(cpu: Cpu, n: Proc, j: nat, k: nat)
    ensures Steps(cpu, n, j + k) == Steps(cpu, Steps(cpu, n, j), k)
    decreases j
  {
    hide Exec;
    if j > 0 {
      var q := Exec(cpu, Step, n);
      StepsAdd(cpu, q, j - 1, k);
      StepsNext(cpu, n, j - 1);
      StepsNext(cpu, n, j - 1 + k);
    }
  }

  lemma StepsNext(cpu: Cpu, n: Proc, k: nat)
    ensures Steps(cpu, n, 0) == n
    ensures Steps(cpu, n, k + 1) == Steps(cpu, Exec(cpu, Step, n), k)
  {
    hide Exec;
  }

  lemma {:induction false} StepsNative(cpu: Cpu, n: Proc, k: nat, patches: set<int>)
    requires Respectful(cpu, n, patches)
    ensures Respectful(cpu, Steps(cpu, n, k), patches)
    decreases k
  {
    hide Exec, Respectful;
    if k > 0 {
      assert Native(cpu, n, [Step]) == Exec(cpu, Step, n);
      RespectfulNative(cpu, n, [Step], patches);
      StepsNative(cpu, Exec(cpu, Step, n), k - 1, patches);
    }
  }

  // ---- What keeps a session quiet ----

  /** The program has no int3 of its own on its way. */
  ghost predicate NoInt3(cpu: Cpu, n: Proc) {
    forall k: nat :: !AtInt3(Steps(cpu, n, k))
  }

  predicate CallStopBehind(n: Proc, q: Proc, patches: set<int>) {
    q.regs.inSyscall != n.regs.inSyscall && q.regs.rip - 1 in patches
  }

  /** No system call is entered or left one byte behind a patch. */
  ghost predicate NoCallBehind(cpu: Cpu, n: Proc, patches: set<int>) {
    forall k: nat :: !CallStopBehind(Steps(cpu, n, k), Exec(cpu, Step, Steps(cpu, n, k)), patches)
  }

  ghost predicate Calm(cpu: Cpu, n: Proc, patches: set<int>) {
    Respectful(cpu, n, patches) && NoInt3(cpu, n) && NoCallBehind(cpu, n, patches)
  }

  lemma CalmLater(cpu: Cpu, n: Proc, k: nat, patches: set<int>)
    requires Calm(cpu, n, patches)
    ensures Calm(cpu, Steps(cpu, n, k), patches)
  {
    hide Exec, Respectful;
    StepsNative(cpu, n, k, patches);
    var m := Steps(cpu, n, k);
    forall j: nat ensures !AtInt3(Steps(cpu, m, j)) {
      StepsAdd(cpu, n, k, j);
      assert !AtInt3(Steps(cpu, n, k + j));
    }
    forall j: nat ensures !CallStopBehind(Steps(cpu, m, j), Exec(cpu, Step, Steps(cpu, m, j)), patches) {
      StepsAdd(cpu, n, k, j);
      assert !CallStopBehind(Steps(cpu, n, k + j), Exec(cpu, Step, Steps(cpu, n, k + j)), patches);
    }
  }

  /** What a quiet session starts from, and keeps as long as the process lives. */
  ghost predicate QuietAt(cpu: Cpu, d: Dbg, n: Proc, patches: set<int>) {
    && Calm(cpu, n, patches) && Covers(d.bps, patches) && Linked(d.bps, d.proc, n)
    && d.signum == 0 && NoSignals(d.events)
  }

  // ---- One command ----

  lemma QuietStep(cpu: Cpu, d: Dbg, n: Proc, patches: set<int>) returns (k: nat)
    requires WellBehaved(cpu) && QuietAt(cpu, d, n, patches) && !d.quit
    ensures var d' := SingleStep(cpu, d).dbg;
            Linked(d'.bps, d'.proc, Steps(cpu, n, k)) && (!d'.quit ==> QuietAt(cpu, d', Steps(cpu, n, k), patches))
  {
    hide WellBehaved, Respectful, NoInt3, NoCallBehind, Covers, Patched, SingleStep, Exec;
    var done := StepsOnce(cpu, d, n, patches);
    var q := Exec(cpu, Step, n);
    k := if !done then 0 else if q.regs.inSyscall && !n.regs.inSyscall then 2 else 1;
    StepsNext(cpu, n, 0);
    StepsNext(cpu, n, 1);
    StepsNext(cpu, q, 0);
    StepsNext(cpu, Exec(cpu, Step, q), 0);
    CalmLater(cpu, n, k, patches);
  }

  /** The onlooker sees the program where it is by itself, breakpoints only where patches are, and
      stops at calls where they are entered or left. */
  lemma {:induction false} LooksSteps(cpu: Cpu, watch: seq<int>, s: Sight, k: nat, patches: set<int>)
    requires Covers(s.bps, patches) && s.gait.Prompt? && NoSignals(s.events)
    ensures var t := Looks(cpu, watch, s, k);
            && t.n == Steps(cpu, s.n, k) && Covers(t.bps, patches) && NoSignals(t.events)
            && (k > 0 ==> !t.gait.Prompt?) && !t.gait.Diverted?
            && (t.gait.Call? ==> k > 0 && t.n == Exec(cpu, Step, Steps(cpu, s.n, k - 1))
                                 && t.n.regs.inSyscall != Steps(cpu, s.n, k - 1).regs.inSyscall)
    decreases k
  {
    hide Exec, IsBreakpoint;
    LooksNext(cpu, watch, s, 0);
    StepsNext(cpu, s.n, 0);
    if k > 0 {
      LooksSteps(cpu, watch, s, k - 1, patches);
      LooksSnoc(cpu, watch, s, k - 1);
      StepsAdd(cpu, s.n, k - 1, 1);
      var m := Steps(cpu, s.n, k - 1);
      StepsNext(cpu, m, 0);
      StepsNext(cpu, Exec(cpu, Step, m), 0);
    }
  }

  /** So the only reason to come back is a breakpoint or a watched call. */
  lemma QuietReason(cpu: Cpu, watch: seq<int>, s: Sight, k: nat, patches: set<int>)
    requires Covers(s.bps, patches) && s.gait.Prompt? && NoSignals(s.events) && Calm(cpu, s.n, patches)
    requires Returns(watch, Looks(cpu, watch, s, k), k)
    ensures var end := Looks(cpu, watch, s, k);
            var spot := SpotAfter(cpu, watch, end, k);
            spot.n == end.n == Steps(cpu, s.n, k) && spot.signum == 0
  {
    hide Exec, Respectful, InSyscalls, ToInt;
    LooksSteps(cpu, watch, s, k, patches);
    var end := Looks(cpu, watch, s, k);
    assert !AtInt3(Steps(cpu, s.n, k));
    if k > 0 {
      var m := Steps(cpu, s.n, k - 1);
      assert !CallStopBehind(m, Exec(cpu, Step, m), patches);
      assert !Mistaken(end) by {
        if Mistaken(end) { BehindPatch(end.bps, end.n.regs.rip - 1, patches); }
      }
    }
  }

  lemma BehindPatch(bps: seq<Bp>, addr: int, patches: set<int>)
    requires Covers(bps, patches) && IsBreakpoint(bps, addr)
    ensures addr in patches
  {
  }

  lemma QuietContinue(cpu: Cpu, d: Dbg, n: Proc, patches: set<int>) returns (k: nat)
    requires WellBehaved(cpu) && QuietAt(cpu, d, n, patches) && !d.quit
    ensures var d' := ContinueExecution(cpu, d).dbg;
            Linked(d'.bps, d'.proc, Steps(cpu, n, k)) && (!d'.quit ==> QuietAt(cpu, d', Steps(cpu, n, k), patches))
  {
    hide WellBehaved, Respectful, NoInt3, NoCallBehind, Covers, Patched, ContinueExecution, Exec;
    hide Returns, SpotAfter, Looks;
    var s := Start(cpu, d, n);
    k := ContinueStopsAtFirst(cpu, d, n, patches);
    LooksSteps(cpu, d.watch, s, k, patches);
    var r := ContinueExecution(cpu, d);
    if !r.threw && !r.dbg.quit {
      QuietReason(cpu, d.watch, s, k, patches);
    }
    CalmLater(cpu, n, k, patches);
    OneShot.ContinueEvolves(cpu, d);
    FadesCovers(d.bps, r.dbg.bps, patches);
  }

  lemma FadesCovers(bps: seq<Bp>, bps': seq<Bp>, patches: set<int>)
    requires Covers(bps, patches) && |bps'| == |bps| && forall i :: 0 <= i < |bps| ==> OneShot.Fades(bps[i], bps'[i])
    ensures Covers(bps', patches)
  {
  }

  // ---- Sessions ----

  /** Without signals, int3s of the program's own and calls next to patches nothing misfires: after
      any sound session, with any system call breakpoints, the debugged process is exactly where the
      program is by itself after some number of steps, up to the int3s at live breakpoints. */
  lemma {:induction false} QuietSession(cpu: Cpu, d: Dbg, cmds: seq<Cmd>, n: Proc, patches: set<int>) returns (k: nat)
    requires WellBehaved(cpu) && QuietAt(cpu, d, n, patches) && SoundSession(cpu, d, cmds, patches)
    ensures var d' := Session(cpu, d, cmds); Linked(d'.bps, d'.proc, Steps(cpu, n, k))
    decreases |cmds|
  {
    hide WellBehaved, Calm, Covers, Patched, SingleStep, ContinueExecution;
    k := 0;
    StepsNext(cpu, n, 0);
    if cmds != [] && !d.quit {
      var d1 := Apply(cpu, d, cmds[0]);
      if cmds[0].StepInstr? {
        k := QuietStep(cpu, d, n, patches);
      } else if cmds[0].Continue? {
        k := QuietContinue(cpu, d, n, patches);
      } else {
        TableLinked(d, cmds[0], cpu, n, patches);
      }
      if !Overruns(d, cmds[0]) && !d1.quit {
        var more := QuietSession(cpu, d1, cmds[1..], Steps(cpu, n, k), patches);
        StepsAdd(cpu, n, k, more);
        k := k + more;
      }
    }
  }

  // ---- Without system call breakpoints ----

  lemma {:induction false} RunOutside(cpu: Cpu, mode: Mode, p: Proc, budget: nat, async: Async)
    requires WellBehaved(cpu) && mode != Sysc && !p.regs.inSyscall
    ensures var (p', stop) := Run(cpu, mode, p, budget, async); !p'.regs.inSyscall && stop != SyscallStop
    decreases budget
  {
    if budget > 0 && !AtInt3(p) {
      RunOutside(cpu, mode, Instr(cpu, p), budget - 1, async);
    }
  }

  lemma HandledOutside(d: Dbg, stop: Stop, step: bool)
    requires d.signum == 0 && !d.proc.regs.inSyscall && stop != SyscallStop
    ensures var h := Handle(d, stop, step, false); !h.again && !h.dbg.proc.regs.inSyscall
  {
    hide ToggledMemory;
  }

  ghost predicate Outside(d: Dbg) {
    !d.proc.regs.inSyscall && d.watch == [] && d.signum < 128
  }

  lemma WaitOutside(cpu: Cpu, d: Dbg, mode: Mode, step: bool)
    requires WellBehaved(cpu) && Outside(d) && mode != Sysc
    ensures var r := WaitProgram(cpu, Resume(cpu, d, mode), step);
            Outside(r.dbg) && |r.dbg.events| + 1 >= |d.events| && (r.threw ==> r.dbg.events == [])
  {
    hide Run, Handle, WaitProgram, Exec;
    var d1 := Resume(cpu, d, mode);
    assert !d1.proc.regs.inSyscall by { ResumedOutside(cpu, d, mode); }
    if d.events == [] {
      WaitFails(cpu, d1, step);
    } else {
      var ev := d.events[0];
      RunOutside(cpu, mode, d1.proc, ev.budget, ev.async);
      WaitUnfolds(cpu, d1, step);
      var (d2, stop) := Awaited(cpu, d1);
      HandledOutside(d2, stop, step);
    }
  }

  lemma ResumedOutside(cpu: Cpu, d: Dbg, mode: Mode)
    requires WellBehaved(cpu) && d.signum < 128 && !d.proc.regs.inSyscall
    ensures !Resume(cpu, d, mode).proc.regs.inSyscall
  {
  }

  lemma WaitFails(cpu: Cpu, d: Dbg, step: bool)
    requires d.signum == 0 && d.events == []
    ensures WaitProgram(cpu, d, step) == Result(d, false, true)
  {
  }

  lemma StepOutside(cpu: Cpu, d: Dbg)
    requires WellBehaved(cpu) && Outside(d)
    ensures var r := SingleStep(cpu, d); Outside(r.dbg) && |r.dbg.events| + 1 >= |d.events|
  {
    hide WellBehaved, WaitProgram, ToggledMemory, Resume;
    WaitOutside(cpu, Lifted(d), Single, true);
  }

  /** Without system call breakpoints a continue takes two events at most, and the process is not
      inside of a call after it. */
  lemma ContinueOutside(cpu: Cpu, d: Dbg)
    requires WellBehaved(cpu) && Outside(d)
    ensures var r := ContinueExecution(cpu, d); Outside(r.dbg) && |r.dbg.events| + 2 >= |d.events|
  {
    hide WellBehaved, WaitProgram, SingleStep, Resume;
    if IsBreakpoint(d.bps, d.proc.regs.rip) {
      StepOutside(cpu, d);
      var r := SingleStep(cpu, d);
      if r.value {
        WaitOutside(cpu, r.dbg, Cont, false);
      }
    } else {
      WaitOutside(cpu, d, Cont, false);
    }
  }

  /** A session without system call breakpoints never ends inside of a call, whatever the events. */
  lemma {:induction false} SessionOutside(cpu: Cpu, d: Dbg, cmds: seq<Cmd>)
    requires WellBehaved(cpu) && Outside(d) && forall i :: 0 <= i < |cmds| ==> !cmds[i].Watch?
    ensures Outside(Session(cpu, d, cmds))
    decreases |cmds|
  {
    hide WellBehaved, SingleStep, ContinueExecution, PlacedMemory;
    if cmds != [] && !d.quit {
      if cmds[0].StepInstr? {
        StepOutside(cpu, d);
      } else if cmds[0].Continue? {
        ContinueOutside(cpu, d);
      }
      if !Overruns(d, cmds[0]) {
        assert forall i :: 0 <= i < |cmds[1..]| ==> cmds[1..][i] == cmds[i + 1];
        SessionOutside(cpu, Apply(cpu, d, cmds[0]), cmds[1..]);
      }
    }
  }
}
