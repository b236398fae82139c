/** What the trace says about signals and system call stops, over whole sessions. */
module Books {
  import opened Tracee
  import opened Breakpoints
  import opened Commands
  import opened Transparency

  // ---- Signals ----

  /** The signal of a stop that the debugger has not caused: one sent to the process, or the
      SIGTRAP of an int3 of the program's own. */
  predicate IsForeign(note: Note) {
    note.Reported? && (note.stop.External? || (note.stop == Break && !note.atBreakpoint))
  }

  function ForeignSignal(note: Note): Signo
    requires IsForeign(note)
  {
    Status(note.stop)
  }

  /** A SIGTRAP of the program that looks like one of the debugger's. */
  predicate Swallowed(note: Note) {
    IsForeign(note) && ForeignSignal(note) == SIGTRAP && (note.stepping || note.atBreakpoint)
  }

  function Foreign(t: seq<Note>): seq<Signo> {
    if t == [] then []
    else
      var note := t[|t| - 1];
      if IsForeign(note) then Foreign(t[..|t| - 1]) + [ForeignSignal(note)] else Foreign(t[..|t| - 1])
  }

  function Passed(t: seq<Note>): seq<Signo> {
    if t == [] then []
    else
      var note := t[|t| - 1];
      if IsForeign(note) && !Swallowed(note) then Passed(t[..|t| - 1]) + [ForeignSignal(note)] else Passed(t[..|t| - 1])
  }

  function Pending(d: Dbg): seq<Signo>
    requires d.signum < 128
  {
    if d.signum == 0 then [] else [d.signum]
  }

  // ---- System calls ----

  /** The parity of the system call stops. */
  function OddStops(t: seq<Note>): bool {
    if t == [] then false
    else
      var note := t[|t| - 1];
      OddStops(t[..|t| - 1]) != (note.Reported? && note.stop == SyscallStop)
  }

  /** The parity of the single steps made from the entry stop of a system call. */
  function OddEscapes(t: seq<Note>): bool {
    if t == [] then false
    else
      var note := t[|t| - 1];
      OddEscapes(t[..|t| - 1]) != (note.Reported? && note.stepping && note.fromSyscall)
  }

  /** At each stop of a live process, the parity of the system call stops so far tells whether it
      is inside of a call, exactly if the number of escapes so far is even. */
  ghost predicate FlagsExact(t: seq<Note>) {
    forall i :: 0 <= i < |t| && t[i].Reported? && !t[i].stop.Ended? ==>
                  ((OddStops(t[..i + 1]) == t[i].regs.inSyscall) <==> !OddEscapes(t[..i + 1]))
  }

  ghost predicate BooksKept(d: Dbg) {
    && d.signum < 128
    && Injections(d.trace) + Pending(d) == Passed(d.trace)
    && d.entry == OddStops(d.trace)
    && FlagsExact(d.trace)
    && (!d.quit ==> Synced(d))
  }

  ghost predicate Synced(d: Dbg) {
    && ((d.entry == d.proc.regs.inSyscall) <==> !OddEscapes(d.trace))
    && (d.proc.regs.inSyscall ==> d.signum == 0 && d.watch != [])
  }

  predicate Resumed(d: Dbg, step: bool) {
    && d.signum == 0 && !d.quit
    && (step <==> d.mode == Single)
    && (d.mode == Cont ==> !d.proc.regs.inSyscall)
    && (d.mode == Sysc ==> d.watch != [])
  }

  lemma {:induction false} RunFlag(cpu: Cpu, mode: Mode, p: Proc, budget: nat, async: Async)
    requires WellBehaved(cpu) && (mode == Cont ==> !p.regs.inSyscall)
    requires budget == 0 && p.regs.inSyscall ==> !async.Signal?
    ensures var (p', stop) := Run(cpu, mode, p, budget, async);
            && (stop == Stepped ==> mode == Single)
            && (stop == SyscallStop ==> mode == Sysc && p'.regs.inSyscall != p.regs.inSyscall)
            && (stop != SyscallStop && stop != Ended ==> !p'.regs.inSyscall && (mode == Sysc ==> !p.regs.inSyscall))
    decreases budget
  {
    if budget > 0 && !AtInt3(p) {
      var q := Advance(cpu, mode, p);
      if mode != Sysc || q.regs.inSyscall == p.regs.inSyscall {
        assert !q.regs.inSyscall;
        RunFlag(cpu, mode, q, budget - 1, async);
      }
    }
  }

  lemma Snoc(t: seq<Note>, note: Note)
    ensures (t + [note])[..|t|] == t
    ensures Passed(t + [note])
         == if IsForeign(note) && !Swallowed(note) then Passed(t) + [ForeignSignal(note)] else Passed(t)
  {
    assert (t + [note])[..|t|] == t;
  }

  lemma FlagsNext(t: seq<Note>, note: Note)
    requires FlagsExact(t)
    requires note.Reported? && !note.stop.Ended? ==>
               ((OddStops(t + [note]) == note.regs.inSyscall) <==> !OddEscapes(t + [note]))
    ensures FlagsExact(t + [note])
  {
    hide OddStops, OddEscapes;
    var u := t + [note];
    forall i | 0 <= i < |u| && u[i].Reported? && !u[i].stop.Ended?
      ensures (OddStops(u[..i + 1]) == u[i].regs.inSyscall) <==> !OddEscapes(u[..i + 1])
    {
      if i < |t| {
        assert u[i] == t[i] && u[..i + 1] == t[..i + 1];
      } else {
        assert u[..i + 1] == u;
      }
    }
  }

  /** What handling a stop does to the debugger's own variables. */
  lemma HandleOutcome(d: Dbg, stop: Stop, step: bool, fromSyscall: bool)
    requires d.signum == 0
    ensures var h := Handle(d, stop, step, fromSyscall).dbg;
            var bp := !stop.Ended? && IsBreakpoint(d.bps, d.proc.regs.rip - 1);
            && h.trace == d.trace + [Reported(stop, d.proc.regs, step, fromSyscall, bp)]
            && h.quit == (d.quit || stop.Ended?)
            && h.entry == (d.entry != (stop == SyscallStop && !step))
            && h.proc.regs.inSyscall == d.proc.regs.inSyscall
            && h.signum == (if stop.Ended? || stop == SyscallStop || (Status(stop) == SIGTRAP && (step || bp)) then 0
                            else Status(stop))
  {
  }

  /** Handling a stop keeps the books. */
  lemma HandleBooks(d: Dbg, stop: Stop, step: bool, fromSyscall: bool)
    requires d.signum == 0 && !d.quit
    requires Injections(d.trace) == Passed(d.trace) && d.entry == OddStops(d.trace) && FlagsExact(d.trace)
    requires stop == Stepped ==> step
    requires stop == SyscallStop ==> !step && d.proc.regs.inSyscall != fromSyscall && d.watch != []
    requires stop != SyscallStop && stop != Ended ==> !d.proc.regs.inSyscall && (!step ==> !fromSyscall)
    requires (d.entry == fromSyscall) <==> !OddEscapes(d.trace)
    ensures BooksKept(Handle(d, stop, step, fromSyscall).dbg)
  {
    var h := Handle(d, stop, step, fromSyscall).dbg;
    HandleOutcome(d, stop, step, fromSyscall);
    BooksNext(d, h, h.trace[|d.trace|]);
  }

  lemma BooksNext(d: Dbg, h: Dbg, note: Note)
    requires Injections(d.trace) == Passed(d.trace) && d.entry == OddStops(d.trace) && FlagsExact(d.trace) && !d.quit
    requires note.Reported? && h.trace == d.trace + [note] && h.signum < 128
    requires !note.stop.Ended? ==> !h.quit && note.regs.inSyscall == h.proc.regs.inSyscall
    requires h.signum == if IsForeign(note) && !Swallowed(note) then ForeignSignal(note) else 0
    requires h.entry == (d.entry != (note.stop == SyscallStop))
    requires h.quit || Synced(h)
    ensures BooksKept(h)
  {
    Snoc(d.trace, note);
    InjectionsNext(d.trace, note);
    assert Injections(h.trace) + [] == Injections(h.trace);
    assert h.entry == OddStops(h.trace);
    FlagsNext(d.trace, note);
  }

  lemma AwaitedBooks(cpu: Cpu, d: Dbg, step: bool)
    requires WellBehaved(cpu) && BooksKept(d) && Resumed(d, step) && d.events != []
    ensures var (d1, stop) := Awaited(cpu, d);
            BooksKept(Handle(d1, stop, step, d.proc.regs.inSyscall).dbg)
  {
    hide Handle, Passed, Injections, OddStops, OddEscapes, FlagsExact;
    var ev := d.events[0];
    var budget := if ev.budget == 0 && d.proc.regs.inSyscall && ev.async.Signal? then 1 else ev.budget;
    RunFlag(cpu, d.mode, d.proc, budget, ev.async);
    var (d1, stop) := Awaited(cpu, d);
    HandleBooks(d1, stop, step, d.proc.regs.inSyscall);
  }

  lemma {:induction false} WaitBooks(cpu: Cpu, d: Dbg, step: bool)
    requires WellBehaved(cpu) && BooksKept(d) && Resumed(d, step)
    ensures BooksKept(WaitProgram(cpu, d, step).dbg)
    decreases |d.events|, 0
  {
    if d.events != [] {
      AwaitedBooks(cpu, d, step);
      var (d1, stop) := Awaited(cpu, d);
      var h := Handle(d1, stop, step, d.proc.regs.inSyscall);
      if h.again {
        ContinueBooks(cpu, h.dbg);
      }
    }
  }

  lemma ResumeBooks(cpu: Cpu, d: Dbg, mode: Mode)
    requires WellBehaved(cpu) && BooksKept(d) && !d.quit
    requires mode == Cont ==> d.watch == []
    requires mode == Sysc ==> d.watch != []
    ensures BooksKept(Resume(cpu, d, mode)) && Resumed(Resume(cpu, d, mode), mode == Single)
  {
    if d.signum != 0 {
      Snoc(d.trace, Injected(d.signum));
      InjectionsNext(d.trace, Injected(d.signum));
      FlagsNext(d.trace, Injected(d.signum));
    }
  }

  lemma LiftedBooks(d: Dbg)
    requires BooksKept(d)
    ensures BooksKept(Lifted(d))
  {
  }

  lemma RestoredBooks(r: Result, bp: int)
    requires BooksKept(r.dbg) && -1 <= bp < |r.dbg.bps|
    ensures BooksKept(Restored(r, bp).dbg)
  {
  }

  lemma {:induction false} StepBooks(cpu: Cpu, d: Dbg)
    requires WellBehaved(cpu) && BooksKept(d) && !d.quit
    ensures BooksKept(SingleStep(cpu, d).dbg)
    decreases |d.events|, 1
  {
    LiftedBooks(d);
    ResumeBooks(cpu, Lifted(d), Single);
    var d1 := Resume(cpu, Lifted(d), Single);
    WaitBooks(cpu, d1, true);
    RestoredBooks(WaitProgram(cpu, d1, true), GetBreakpoint(d.bps, d.proc.regs.rip));
  }

  lemma {:induction false} ContinueBooks(cpu: Cpu, d: Dbg)
    requires WellBehaved(cpu) && BooksKept(d) && !d.quit
    ensures BooksKept(ContinueExecution(cpu, d).dbg)
    decreases |d.events|, 2
  {
    var mode := if d.watch != [] then Sysc else Cont;
    if IsBreakpoint(d.bps, d.proc.regs.rip) {
      StepBooks(cpu, d);
      var r := SingleStep(cpu, d);
      if r.value {
        ResumeBooks(cpu, r.dbg, mode);
        WaitBooks(cpu, Resume(cpu, r.dbg, mode), false);
      }
    } else {
      ResumeBooks(cpu, d, mode);
      WaitBooks(cpu, Resume(cpu, d, mode), false);
    }
  }

  lemma {:induction false} SessionBooks(cpu: Cpu, d: Dbg, cmds: seq<Cmd>)
    requires WellBehaved(cpu) && BooksKept(d)
    ensures BooksKept(Session(cpu, d, cmds))
    decreases |cmds|
  {
    if cmds != [] && !d.quit {
      match cmds[0] {
        case StepInstr => StepBooks(cpu, d);
        case Continue => ContinueBooks(cpu, d);
        case _ =>
      }
      if !Overruns(d, cmds[0]) {
        SessionBooks(cpu, Apply(cpu, d, cmds[0]), cmds[1..]);
      }
    }
  }

  // ---- What follows ----

  ghost predicate Fresh(d: Dbg) {
    d.signum == 0 && !d.entry && !d.quit && d.trace == [] && !d.proc.regs.inSyscall
  }

  lemma {:induction false} PassedShorter(t: seq<Note>)
    ensures |Passed(t)| <= |Foreign(t)|
    ensures Passed(t) == Foreign(t) <==> forall i :: 0 <= i < |t| ==> !Swallowed(t[i])
    decreases |t|
  {
    if t != [] {
      var u, note := t[..|t| - 1], t[|t| - 1];
      PassedShorter(u);
      assert t == u + [note];
      if IsForeign(note) && !Swallowed(note) {
        SameEnd(Passed(u), Foreign(u), ForeignSignal(note));
      }
    }
  }

  lemma SameEnd(a: seq<Signo>, b: seq<Signo>, x: Signo)
    ensures a + [x] == b + [x] <==> a == b
  {
    assert (a + [x])[..|a|] == a && (b + [x])[..|b|] == b;
  }

  /** Over any session the program gets the signals that were meant for it, in order and once
      each, the last one possibly still to come, exactly when none of them was a SIGTRAP that
      arrived during a step or one byte after a live breakpoint; the others are lost. */
  lemma SignalsConservedIff(cpu: Cpu, d: Dbg, cmds: seq<Cmd>)
    requires WellBehaved(cpu) && Fresh(d)
    ensures var d' := Session(cpu, d, cmds);
            Injections(d'.trace) + Pending(d') == Foreign(d'.trace)
            <==> forall i :: 0 <= i < |d'.trace| ==> !Swallowed(d'.trace[i])
  {
    SessionBooks(cpu, d, cmds);
    PassedShorter(Session(cpu, d, cmds).trace);
  }

  /** Over any session `g_syscall_entry` is the parity of the system call stops, and tells entries
      from exits exactly when an even number of steps have been made from entry stops: at the end,
      and at each stop on the way. */
  lemma EntryFlagExact(cpu: Cpu, d: Dbg, cmds: seq<Cmd>)
    requires WellBehaved(cpu) && Fresh(d)
    ensures var d' := Session(cpu, d, cmds);
            && d'.entry == OddStops(d'.trace) && FlagsExact(d'.trace)
            && (!d'.quit ==> ((d'.entry == d'.proc.regs.inSyscall) <==> !OddEscapes(d'.trace)))
  {
    SessionBooks(cpu, d, cmds);
  }

  // ---- Which system call stops come back to the prompt ----

  /** A system call stop away from breakpoints; no step ends at one. */
  predicate Alone(note: Note) {
    note.Reported? && note.stop == SyscallStop && !note.stepping && !note.atBreakpoint
  }

  predicate Watched(watch: seq<int>, note: Note)
    requires note.Reported?
  {
    InSyscalls(watch, ToInt(note.regs.origRax))
  }

  /** Of the stops from `from` on, the last one, if nothing is thrown, and no other is a flagged
      entry of a watched call, or something else than a system call stop. */
  ghost predicate Returns(r: Result, from: nat) {
    var t := r.dbg.trace;
    && (!r.threw ==> from < |t| && t[|t| - 1].Reported?)
    && forall i :: from <= i < |t| && Alone(t[i]) ==>
                     (!r.threw && i == |t| - 1 <==> Watched(r.dbg.watch, t[i]) && OddStops(t[..i + 1]))
  }

  lemma ReturnsLater(d: Dbg, h: Dbg, r: Result)
    requires |h.trace| > |d.trace| && h.trace == d.trace + [h.trace[|d.trace|]]
    requires Extends(h.trace, r.dbg.trace) && r.dbg.watch == h.watch
    requires var note := h.trace[|d.trace|];
             note.Reported? && (Alone(note) ==> !(Watched(h.watch, note) && OddStops(h.trace)))
    requires Returns(r, |h.trace|)
    ensures Returns(r, |d.trace|)
  {
    hide OddStops, Watched;
    var t, n := r.dbg.trace, |d.trace|;
    assert t[n] == h.trace[n] && t[..n + 1] == h.trace;
  }

  /** One stop handled: if the wait ends here, this is the last note. */
  lemma HandleReturns(d: Dbg, stop: Stop, fromSyscall: bool)
    requires d.signum == 0
    requires var h := Handle(d, stop, false, fromSyscall).dbg; h.entry == OddStops(h.trace)
    ensures var h := Handle(d, stop, false, fromSyscall);
            var note := h.dbg.trace[|d.trace|];
            && h.dbg.trace == d.trace + [note] && note.Reported?
            && (if h.again then Alone(note) ==> !(Watched(d.watch, note) && OddStops(h.dbg.trace))
                else Returns(Result(h.dbg, h.value, false), |d.trace|))
  {
    hide OddStops, AtBreakpoint, ToInt, InSyscalls;
    HandleMoves(d, stop, false, fromSyscall);
    var h := Handle(d, stop, false, fromSyscall);
    assert h.dbg.trace[..|d.trace| + 1] == h.dbg.trace;
  }

  lemma {:induction false} WaitReturns(cpu: Cpu, d: Dbg)
    requires WellBehaved(cpu) && BooksKept(d) && Resumed(d, false)
    ensures Returns(WaitProgram(cpu, d, false), |d.trace|)
    decreases |d.events|, 0
  {
    hide Handle, FlagsExact, Passed, Injections, OddStops, OddEscapes, KernelRun, Watched, Alone;
    if d.events != [] {
      AwaitedBooks(cpu, d, false);
      var (d1, stop) := Awaited(cpu, d);
      HandleReturns(d1, stop, d.proc.regs.inSyscall);
      var h := Handle(d1, stop, false, d.proc.regs.inSyscall);
      if h.again {
        var r := ContinueExecution(cpu, h.dbg);
        ContinueReturns(cpu, h.dbg);
        ReturnsLater(d1, h.dbg, r);
      }
    }
  }

  /** None of the notes of a step is a system call stop of its own. */
  lemma StepReturns(cpu: Cpu, d: Dbg)
    requires d.signum < 128
    ensures var r := SingleStep(cpu, d);
            var t := r.dbg.trace;
            && (!r.threw ==> |d.trace| < |t| && t[|t| - 1].Reported?)
            && forall i :: |d.trace| <= i < |t| ==> !Alone(t[i])
  {
    hide KernelRun, AtBreakpoint, ToggledMemory, Handle;
    var d1 := Resume(cpu, Lifted(d), Single);
    if d.events != [] {
      var (d2, stop) := Awaited(cpu, d1);
      StepNotes(d2, stop, d1.proc.regs.inSyscall);
    }
  }

  lemma StepNotes(d: Dbg, stop: Stop, fromSyscall: bool)
    requires d.signum == 0
    ensures var h := Handle(d, stop, true, fromSyscall);
            && !h.again && |h.dbg.trace| == |d.trace| + 1
            && h.dbg.trace[|d.trace|].Reported? && !Alone(h.dbg.trace[|d.trace|])
  {
    hide AtBreakpoint;
    HandleMoves(d, stop, true, fromSyscall);
  }

  lemma {:induction false} ContinueReturns(cpu: Cpu, d: Dbg)
    requires WellBehaved(cpu) && BooksKept(d) && !d.quit
    ensures Returns(ContinueExecution(cpu, d), |d.trace|)
    decreases |d.events|, 2
  {
    hide FlagsExact, Passed, Injections, OddStops, OddEscapes, WaitProgram, SingleStep;
    var mode := if d.watch != [] then Sysc else Cont;
    if IsBreakpoint(d.bps, d.proc.regs.rip) {
      StepBooks(cpu, d);
      StepReturns(cpu, d);
      var r := SingleStep(cpu, d);
      if r.value {
        ResumeBooks(cpu, r.dbg, mode);
        WaitReturns(cpu, Resume(cpu, r.dbg, mode));
      }
    } else {
      ResumeBooks(cpu, d, mode);
      WaitReturns(cpu, Resume(cpu, d, mode));
    }
  }

  /** After any session, a continue passes over every system call stop away from breakpoints, up to
      and not including the first one that is of a watched call and at its entry, if an even number
      of steps have been made from entry stops by then, or at its exit, if an odd number. */
  lemma ContinueCatchesIff(cpu: Cpu, d: Dbg, cmds: seq<Cmd>)
    requires WellBehaved(cpu) && Fresh(d)
    ensures var d1 := Session(cpu, d, cmds);
            var r := ContinueExecution(cpu, d1);
            !d1.quit ==> CatchesFrom(d1.watch, r, |d1.trace|)
  {
    hide Passed, Injections, OddStops, OddEscapes, ContinueExecution, Session, Watched;
    var d1 := Session(cpu, d, cmds);
    SessionBooks(cpu, d, cmds) by { FreshBooks(d); }
    if !d1.quit {
      ContinueBooks(cpu, d1);
      ContinueReturns(cpu, d1);
    }
  }

  /** Of the system call stops from `from` on, exactly one at the end of the trace is of a watched
      call and at its entry, or at its exit if the escapes up to it are odd; none is if an exception
      was thrown. */
  ghost predicate CatchesFrom(watch: seq<int>, r: Result, from: nat) {
    var t := r.dbg.trace;
    forall i :: from <= i < |t| && Alone(t[i]) ==>
                  (!r.threw && i == |t| - 1
                   <==> Watched(watch, t[i]) && (t[i].regs.inSyscall <==> !OddEscapes(t[..i + 1])))
  }

  lemma FreshBooks(d: Dbg)
    requires Fresh(d)
    ensures BooksKept(d)
  {
  }
}
