/** How the run loop changes the breakpoint table. */
module OneShot {
  import opened Tracee
  import opened Breakpoints
  import opened Commands

  /** Nothing but a temporary breakpoint being used up. */
  predicate Evolves(b: Bp, b': Bp) {
    b' == b || (b.temp && b.enabled && b' == b.(enabled := false))
  }

  /** A command that was cut short may also leave a permanent breakpoint out. */
  predicate Fades(b: Bp, b': Bp) {
    b' == b || (b.enabled && b' == b.(enabled := false))
  }

  ghost predicate TableEvolves(r: Result, bps: seq<Bp>) {
    && |r.dbg.bps| == |bps|
    && (forall i :: 0 <= i < |bps| ==> Fades(bps[i], r.dbg.bps[i]))
    && (!r.threw ==> forall i :: 0 <= i < |bps| ==> Evolves(bps[i], r.dbg.bps[i]))
  }

  lemma HandleEvolves(d: Dbg, stop: Stop, step: bool, fromSyscall: bool)
    requires d.signum == 0
    ensures TableEvolves(Result(Handle(d, stop, step, fromSyscall).dbg, false, false), d.bps)
  {
  }

  lemma {:induction false} WaitEvolves(cpu: Cpu, d: Dbg, step: bool)
    requires d.signum == 0
    ensures TableEvolves(WaitProgram(cpu, d, step), d.bps)
    decreases |d.events|, 0
  {
    if d.events != [] {
      var (d1, stop) := Awaited(cpu, d);
      HandleEvolves(d1, stop, step, d.proc.regs.inSyscall);
      var h := Handle(d1, stop, step, d.proc.regs.inSyscall);
      if h.again {
        ContinueEvolves(cpu, h.dbg);
      }
    }
  }

  lemma RestoredEvolves(d: Dbg, r: Result)
    requires TableEvolves(r, Lifted(d).bps)
    ensures TableEvolves(Restored(r, GetBreakpoint(d.bps, d.proc.regs.rip)), d.bps)
  {
    var bp := GetBreakpoint(d.bps, d.proc.regs.rip);
    if bp != -1 {
      assert Lifted(d).bps[bp] == d.bps[bp].(enabled := false);
    }
  }

  /** A step that runs to its end leaves every permanent breakpoint as it was, although the one
      at RIP is toggled twice, and at most uses up temporary ones. */
  lemma {:induction false} StepEvolves(cpu: Cpu, d: Dbg)
    requires d.signum < 128
    ensures TableEvolves(SingleStep(cpu, d), d.bps)
    decreases |d.events|, 1
  {
    var d1 := Resume(cpu, Lifted(d), Single);
    WaitEvolves(cpu, d1, true);
    RestoredEvolves(d, WaitProgram(cpu, d1, true));
  }

  lemma {:induction false} ContinueEvolves(cpu: Cpu, d: Dbg)
    requires d.signum < 128
    ensures TableEvolves(ContinueExecution(cpu, d), d.bps)
    decreases |d.events|, 2
  {
    var mode := if d.watch != [] then Sysc else Cont;
    if IsBreakpoint(d.bps, d.proc.regs.rip) {
      StepEvolves(cpu, d);
      var r := SingleStep(cpu, d);
      if !r.threw && r.value {
        WaitEvolves(cpu, Resume(cpu, r.dbg, mode), false);
      }
    } else {
      WaitEvolves(cpu, Resume(cpu, d, mode), false);
    }
  }

  /** Over a whole session a temporary breakpoint that has been used up never comes back. */
  lemma {:induction false} UsedUpForGood(cpu: Cpu, d: Dbg, cmds: seq<Cmd>, i: nat)
    requires d.signum < 128 && i < |d.bps| && d.bps[i].temp
    ensures i < |Session(cpu, d, cmds).bps| && Session(cpu, d, cmds).bps[i].temp
    ensures Session(cpu, d, cmds).bps[i].enabled ==> d.bps[i].enabled
    decreases |cmds|
  {
    hide SingleStep, ContinueExecution, PlacedMemory;
    if cmds != [] && !d.quit {
      match cmds[0] {
        case StepInstr => StepEvolves(cpu, d);
        case Continue => ContinueEvolves(cpu, d);
        case _ =>
      }
      if !Overruns(d, cmds[0]) {
        UsedUpForGood(cpu, Apply(cpu, d, cmds[0]), cmds[1..], i);
      }
    }
  }
}
