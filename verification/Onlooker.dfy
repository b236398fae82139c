/**
 Where continue comes back, said by an onlooker who patches nothing: it watches the undebugged
 program run, act by act, and compares RIP with the breakpoint table.
 */
module Onlooker {
  import opened Tracee
  import opened Breakpoints
  import opened Commands
  import opened Transparency
  import opened Stops
  import OneShot

  /** How the program has come to where it is: left alone by the prompt, stopped by the entry or the
      exit of a system call, running, in the middle of the call that a single step runs, or led there
      by a signal that the step off the breakpoint at `left` has delivered first. */
  datatype Gait = Prompt | Call | Free | Midstep | Diverted(left: int)

  /** Of the `events` to come the onlooker only looks whether a SIGTRAP is sent before a step has run. */
  datatype Sight = Sight(n: Proc, bps: seq<Bp>, entry: bool, gait: Gait, events: seq<Event>)

  /** At these `continue_execution` is called. */
  predicate Idle(s: Sight) {
    s.gait.Prompt? || s.gait.Call?
  }

  predicate OnBreakpoint(s: Sight) {
    IsBreakpoint(s.bps, s.n.regs.rip)
  }

  /** The table once the program is resumed. */
  function Leaving(s: Sight): seq<Bp> {
    if Idle(s) && OnBreakpoint(s) then TakenOut(s.bps, s.n.regs.rip) else s.bps
  }

  /** The next act is made by a single step. */
  predicate Stepping(s: Sight) {
    s.gait.Diverted? || (Idle(s) && OnBreakpoint(s))
  }

  /** A step is about to execute the int3 of another breakpoint, to which the signal has led. */
  predicate Misled(s: Sight) {
    s.gait.Diverted? && s.n.regs.rip != s.gait.left && OnBreakpoint(s)
  }

  function Tail(events: seq<Event>): seq<Event> {
    if events == [] then [] else events[1..]
  }

  /** The next act; with system call breakpoints the program stops at calls. From a breakpoint it is made by a
      single step, which uses up a temporary one, or left out, if a SIGTRAP is taken for the end of the step. */
  function Look(cpu: Cpu, watch: seq<int>, s: Sight): Sight {
    var q := if Misled(s) then Moved(cpu, Slip, s.n) else Exec(cpu, Step, s.n);
    if Stepping(s) && TooEarly(s.events, s.n) then
      Sight(s.n, Leaving(s), s.entry, Free, Tail(s.events))
    else if Stepping(s) then
      var gait := if q.regs.inSyscall && !s.n.regs.inSyscall then Midstep else Free;
      Sight(q, Leaving(s), s.entry, gait, Tail(s.events))
    else if watch != [] && !s.gait.Midstep? && q.regs.inSyscall != s.n.regs.inSyscall then
      Sight(q, s.bps, !s.entry, Call, Tail(s.events))
    else
      s.(n := q, gait := Free)
  }

  /** Where the program starts from when continue is called: with a signal pending that is delivered
      first, also if it is then single-stepped off a breakpoint. */
  function Start(cpu: Cpu, d: Dbg, n: Proc): Sight
    requires d.signum < 128
  {
    var told, left := Received(cpu, d.signum, n), n.regs.rip;
    if d.signum == 0 then Sight(n, d.bps, d.entry, Prompt, d.events)
    else if IsBreakpoint(d.bps, left) then Sight(told, TakenOut(d.bps, left), d.entry, Diverted(left), d.events)
    else Sight(told, d.bps, d.entry, Free, d.events)
  }

  function Looks(cpu: Cpu, watch: seq<int>, s: Sight, k: nat): Sight
    decreases k
  {
    if k == 0 then s else Looks(cpu, watch, Look(cpu, watch, s), k - 1)
  }

  /** The next instruction is an int3: a live breakpoint that is not being left, or the program's own. */
  predicate Trapped(s: Sight) {
    && !s.n.regs.inSyscall
    && match s.gait
       case Diverted(_) => false
       case Prompt => AtInt3(s.n) && !OnBreakpoint(s)
       case Call => AtInt3(s.n) && !OnBreakpoint(s)
       case _ => AtInt3(s.n) || OnBreakpoint(s)
  }

  /** A system call stop that looks like a hit of the breakpoint one byte before. */
  predicate Mistaken(s: Sight) {
    s.gait.Call? && IsBreakpoint(s.bps, s.n.regs.rip - 1)
  }

  predicate Announced(watch: seq<int>, s: Sight) {
    s.gait.Call? && (Mistaken(s) || (s.entry && InSyscalls(watch, ToInt(s.n.regs.origRax))))
  }

  /** There is no reason to come back after fewer than `k` acts. */
  ghost predicate Unseen(cpu: Cpu, watch: seq<int>, s: Sight, k: nat) {
    forall j :: 0 <= j < k ==> !Returns(watch, Looks(cpu, watch, s, j), j)
  }

  predicate Returns(watch: seq<int>, s: Sight, j: nat) {
    Trapped(s) || (j > 0 && Announced(watch, s))
  }

  /** Where the program and the debugger are once that is handled: at the breakpoint, behind an int3
      of the program's own with its SIGTRAP still to be passed on, at the system call stop, or, if
      that was mistaken for a hit, one byte before it. */
  function SpotAfter(cpu: Cpu, watch: seq<int>, s: Sight, k: nat): Spot {
    if k > 0 && Announced(watch, s) then
      if Mistaken(s) then Spot(Back(s.n), TakenOut(s.bps, s.n.regs.rip - 1), 0) else Spot(s.n, s.bps, 0)
    else if OnBreakpoint(s) then Spot(s.n, TakenOut(s.bps, s.n.regs.rip), 0)
    else Spot(Exec(cpu, Step, s.n), s.bps, SIGTRAP)
  }

  /** The debugger is back at the prompt after `k` acts, for the first reason there is. */
  ghost predicate BackAfter(cpu: Cpu, d: Dbg, watch: seq<int>, s: Sight, k: nat) {
    var end := Looks(cpu, watch, s, k);
    var spot := SpotAfter(cpu, watch, end, k);
    Returns(watch, end, k) && AtSpot(d, spot)
  }

  /** A step off the breakpoint at `addr` has been among the last acts, or is just being made. */
  ghost predicate JustLeft(cpu: Cpu, watch: seq<int>, s: Sight, k: nat, addr: int) {
    exists j :: 0 <= j <= k <= j + 2 && LeftAt(Looks(cpu, watch, s, j), addr)
  }

  predicate LeftAt(s: Sight, addr: int) {
    s.gait == Diverted(addr) || (Idle(s) && OnBreakpoint(s) && s.n.regs.rip == addr)
  }

  /** The debugger is back after `k` acts because a signal came; with `hit` it was taken for a hit of
      the breakpoint one byte before, which it is unless that is the one that has just been left. */
  ghost predicate SignalledBy(cpu: Cpu, d: Dbg, async: Async, watch: seq<int>, s: Sight, k: nat, hit: bool) {
    var end := Looks(cpu, watch, s, k);
    var behind := IsBreakpoint(Leaving(end), end.n.regs.rip - 1);
    && async.Signal? && AtSpot(d, SignalSpot(Leaving(end), end.n, async.sig, hit))
    && (hit ==> behind) && (behind && !hit ==> JustLeft(cpu, watch, s, k, end.n.regs.rip - 1))
  }

  ghost predicate SignalledAfter(cpu: Cpu, d: Dbg, events: seq<Event>, watch: seq<int>, s: Sight, k: nat) {
    exists i, hit :: 0 <= i < |events| && SignalledBy(cpu, d, events[i].async, watch, s, k, hit)
  }

  // ---- Looking on ----

  lemma LooksNext(cpu: Cpu, watch: seq<int>, s: Sight, k: nat)
    ensures Looks(cpu, watch, s, 0) == s
    ensures Looks(cpu, watch, s, k + 1) == Looks(cpu, watch, Look(cpu, watch, s), k)
  {
    hide Look;
  }

  lemma {:induction false} LooksAdd(cpu: Cpu, watch: seq<int>, s: Sight, a: nat, b: nat)
    ensures Looks(cpu, watch, s, a + b) == Looks(cpu, watch, Looks(cpu, watch, s, a), b)
    decreases a
  {
    hide Look;
    if a > 0 {
      LooksAdd(cpu, watch, Look(cpu, watch, s), a - 1, b);
      LooksNext(cpu, watch, s, a - 1);
      LooksNext(cpu, watch, s, a - 1 + b);
    }
  }

  lemma UnseenAdd(cpu: Cpu, watch: seq<int>, s: Sight, a: nat, b: nat)
    requires Unseen(cpu, watch, s, a)
    requires var mid := Looks(cpu, watch, s, a);
             Unseen(cpu, watch, mid, b) && (a > 0 && b > 0 ==> !Announced(watch, mid))
    ensures Unseen(cpu, watch, s, a + b)
  {
    hide Looks, Trapped, Announced;
    var mid := Looks(cpu, watch, s, a);
    forall j | 0 <= j < a + b ensures !Returns(watch, Looks(cpu, watch, s, j), j) {
      if j >= a {
        LooksAdd(cpu, watch, s, a, j - a);
        assert !Returns(watch, Looks(cpu, watch, mid, j - a), j - a);
        LooksNext(cpu, watch, mid, 0);
      }
    }
  }

  lemma BackLater(cpu: Cpu, d: Dbg, watch: seq<int>, s: Sight, a: nat, b: nat)
    requires var mid := Looks(cpu, watch, s, a); BackAfter(cpu, d, watch, mid, b) && (a > 0 ==> !Announced(watch, mid))
    ensures BackAfter(cpu, d, watch, s, a + b)
  {
    hide Look, Trapped, Announced, OnBreakpoint, Mistaken;
    LooksAdd(cpu, watch, s, a, b);
    LooksNext(cpu, watch, Looks(cpu, watch, s, a), 0);
  }

  /** Away from breakpoints it makes no difference whether the program has just been resumed. */
  lemma Resumes(cpu: Cpu, watch: seq<int>, s: Sight, k: nat)
    requires Idle(s) && !OnBreakpoint(s)
    ensures var free := s.(gait := Free);
            && (k > 0 ==> Looks(cpu, watch, s, k) == Looks(cpu, watch, free, k))
            && (Trapped(s) <==> Trapped(free)) && !Announced(watch, free)
            && SpotAfter(cpu, watch, s, 0) == SpotAfter(cpu, watch, free, 0)
  {
    if k > 0 {
      assert Look(cpu, watch, s) == Look(cpu, watch, s.(gait := Free));
    }
  }

  // ---- One run ----

  function ModeFor(watch: seq<int>): Mode {
    if watch != [] then Sysc else Cont
  }

  /** A run that has ended, and what the onlooker has seen of it. */
  ghost predicate RunSeen(cpu: Cpu, r: (Proc, Stop), async: Async, s: Sight, end: Sight) {
    && end.bps == s.bps && end.entry == (s.entry != r.1.SyscallStop?)
    && end.events == (if r.1.SyscallStop? then Tail(s.events) else s.events)
    && match r.1
       case SyscallStop => end.gait.Call? && Linked(s.bps, r.0, end.n)
       case Break =>
         && end.gait.Free? && Trapped(end) && (IsBreakpoint(s.bps, r.0.regs.rip - 1) <==> OnBreakpoint(end))
         && (if OnBreakpoint(end) then Linked(s.bps, Back(r.0), end.n) else Linked(s.bps, r.0, Exec(cpu, Step, end.n)))
       case _ => r.1 == Happened(async) && end.gait.Free? && Linked(s.bps, r.0, end.n)
  }

  lemma TrapsIff(p: Proc, s: Sight)
    requires Linked(s.bps, p, s.n) && s.gait.Free?
    ensures AtInt3(p) <==> Trapped(s)
  {
    assert Rd(p.mem, p.regs.rip) == if IsBreakpoint(s.bps, p.regs.rip) then INT3 else Rd(s.n.mem, p.regs.rip);
  }

  lemma TrapsHere(cpu: Cpu, watch: seq<int>, p: Proc, s: Sight, budget: nat, async: Async)
    requires Linked(s.bps, p, s.n) && s.gait.Free? && AtInt3(p) && budget > 0
    ensures RunSeen(cpu, Run(cpu, ModeFor(watch), p, budget, async), async, s, s)
  {
    hide Patched;
    TrapsIff(p, s);
    var q := Run(cpu, ModeFor(watch), p, budget, async).0;
    assert q == Exec(cpu, Step, p) && Back(q) == p;
  }

  /** One act, or two for a whole system call where the program does not stop at calls. */
  lemma FreeActs(cpu: Cpu, watch: seq<int>, p: Proc, s: Sight, patches: set<int>) returns (k: nat)
    requires WellBehaved(cpu) && Covers(s.bps, patches) && Respectful(cpu, s.n, patches)
    requires Linked(s.bps, p, s.n) && s.gait.Free? && !AtInt3(p)
    ensures var end, q := Looks(cpu, watch, s, k), Advance(cpu, ModeFor(watch), p);
            var called := watch != [] && q.regs.inSyscall != p.regs.inSyscall;
            && k > 0 && Linked(s.bps, q, end.n) && Respectful(cpu, end.n, patches)
            && end.bps == s.bps && end.gait == (if called then Call else Free) && end.entry == (s.entry != called)
            && end.events == if called then Tail(s.events) else s.events
    ensures Unseen(cpu, watch, s, k)
  {
    hide WellBehaved, Respectful, Covers, Patched, Exec, IsBreakpoint;
    TrapsIff(p, s);
    var s1 := Look(cpu, watch, s);
    DoLinked(cpu, s.bps, p, s.n, patches);
    LooksNext(cpu, watch, s, 0);
    LooksNext(cpu, watch, s, 1);
    LooksNext(cpu, watch, s1, 0);
    k := 1;
    if watch == [] && s1.n.regs.inSyscall && !s.n.regs.inSyscall {
      LooksNext(cpu, watch, Look(cpu, watch, s1), 0);
      DoLinked(cpu, s.bps, Exec(cpu, Step, p), s1.n, patches);
      k := 2;
    }
  }

  /** A run of the patched process ends where the onlooker first sees a trap or a stop at a system
      call, or after its whole budget; the debugger's own int3s leave it one byte too far. */
  lemma {:induction false} RunStopsAtFirst(cpu: Cpu, watch: seq<int>, p: Proc, s: Sight, budget: nat, async: Async,
                                           patches: set<int>)
    returns (k: nat)
    requires WellBehaved(cpu) && Covers(s.bps, patches) && Respectful(cpu, s.n, patches)
    requires Linked(s.bps, p, s.n) && s.gait.Free?
    ensures Unseen(cpu, watch, s, k)
    ensures RunSeen(cpu, Run(cpu, ModeFor(watch), p, budget, async), async, s, Looks(cpu, watch, s, k))
    decreases budget
  {
    hide WellBehaved, Exec, Advance, Respectful, Covers, Patched, IsBreakpoint, Look, Trapped;
    k := 0;
    LooksNext(cpu, watch, s, 0);
    TrapsIff(p, s);
    if budget > 0 && AtInt3(p) {
      TrapsHere(cpu, watch, p, s, budget, async);
    } else if budget > 0 {
      k := FreeActs(cpu, watch, p, s, patches);
      var q, s1 := Advance(cpu, ModeFor(watch), p), Looks(cpu, watch, s, k);
      if s1.gait.Free? {
        var more := RunStopsAtFirst(cpu, watch, q, s1, budget - 1, async, patches);
        LooksAdd(cpu, watch, s, k, more);
        UnseenAdd(cpu, watch, s, k, more);
        k := k + more;
      }
    }
  }

  // ---- Stops ----

  lemma HandleTrap(d: Dbg, n: Proc, fromSyscall: bool)
    requires d.signum == 0 && StoppedLinked(d.bps, d.proc, Break, n)
    ensures var h := Handle(d, Break, false, fromSyscall);
            var hit := IsBreakpoint(d.bps, d.proc.regs.rip - 1);
            && !h.again && Linked(h.dbg.bps, h.dbg.proc, n) && h.dbg.quit == d.quit && h.dbg.entry == d.entry
            && h.dbg.signum == (if hit then 0 else SIGTRAP)
            && h.dbg.bps == if hit then TakenOut(d.bps, d.proc.regs.rip - 1) else d.bps
  {
    hide ToggledMemory;
    HandleMoves(d, Break, false, fromSyscall);
    StopKeepsLinkIff(d, Break, false, fromSyscall, n);
  }

  lemma HandleEnd(d: Dbg, fromSyscall: bool)
    requires d.signum == 0
    ensures var h := Handle(d, Ended, false, fromSyscall);
            !h.again && h.dbg.quit && h.dbg.bps == d.bps && h.dbg.proc == d.proc && h.dbg.entry == d.entry
  {
  }

  lemma HandleCall(cpu: Cpu, d: Dbg, s: Sight, fromSyscall: bool)
    requires d.signum == 0 && Linked(d.bps, d.proc, s.n)
    requires s.gait.Call? && s.bps == d.bps && s.entry == !d.entry
    ensures var h := Handle(d, SyscallStop, false, fromSyscall);
            && h.dbg.signum == 0 && h.dbg.quit == d.quit && h.dbg.entry == s.entry
            && (h.again <==> !Announced(d.watch, s))
            && (if h.again then h.dbg.bps == d.bps && h.dbg.proc == d.proc
                else
                  var spot := SpotAfter(cpu, d.watch, s, 1);
                  h.dbg.bps == spot.bps && spot.signum == 0 && Linked(h.dbg.bps, h.dbg.proc, spot.n))
  {
    hide ToggledMemory, ToInt, Exec, Patched;
    HandleMoves(d, SyscallStop, false, fromSyscall);
    var bp := GetBreakpoint(d.bps, d.proc.regs.rip - 1);
    if bp != -1 {
      AtBreakpointPatched(d.bps, d.proc, bp, s.n);
    }
  }

  // ---- Continuing ----

  /** What `s` sees of a debugger, and what it has to be like to be followed. */
  ghost predicate Watches(cpu: Cpu, d: Dbg, s: Sight, patches: set<int>) {
    && WellBehaved(cpu) && Covers(d.bps, patches) && Respectful(cpu, s.n, patches)
    && Linked(d.bps, d.proc, s.n) && s.bps == d.bps && s.entry == d.entry && s.events == d.events
    && d.signum == 0 && !d.quit
  }

  ghost predicate Suffix(events: seq<Event>, of: seq<Event>) {
    |events| <= |of| && events == of[|of| - |events|..]
  }

  /** A continue or a wait has taken `k` acts: the debugger is back for the first reason there is, or
      a signal has come, the process has ended or the wait has failed before there was one. */
  ghost predicate Outcome(cpu: Cpu, r: Result, events: seq<Event>, watch: seq<int>, s: Sight, k: nat) {
    && r.dbg.entry == Looks(cpu, watch, s, k).entry && Suffix(r.dbg.events, events)
    && if r.threw || r.dbg.quit then
         && Linked(r.dbg.bps, r.dbg.proc, Looks(cpu, watch, s, k).n)
         && (r.dbg.quit || (r.dbg.events == [] && r.dbg.signum == 0))
       else BackAfter(cpu, r.dbg, watch, s, k) || SignalledAfter(cpu, r.dbg, events, watch, s, k)
  }

  lemma SignalledLater(cpu: Cpu, d: Dbg, some: seq<Event>, events: seq<Event>, watch: seq<int>, s: Sight,
                       a: nat, b: nat)
    requires Suffix(some, events) && SignalledAfter(cpu, d, some, watch, Looks(cpu, watch, s, a), b)
    ensures SignalledAfter(cpu, d, events, watch, s, a + b)
  {
    hide AtSpot, Look, SignalSpot, LeftAt, IsBreakpoint;
    var mid := Looks(cpu, watch, s, a);
    var i, hit :| 0 <= i < |some| && SignalledBy(cpu, d, some[i].async, watch, mid, b, hit);
    LooksAdd(cpu, watch, s, a, b);
    var addr := Looks(cpu, watch, mid, b).n.regs.rip - 1;
    if JustLeft(cpu, watch, mid, b, addr) {
      var j :| 0 <= j <= b <= j + 2 && LeftAt(Looks(cpu, watch, mid, j), addr);
      LooksAdd(cpu, watch, s, a, j);
      assert LeftAt(Looks(cpu, watch, s, a + j), addr);
    }
    var i' := i + |events| - |some|;
    assert events[i'] == some[i];
    assert SignalledBy(cpu, d, events[i'].async, watch, s, a + b, hit);
  }

  lemma OutcomeLater(cpu: Cpu, r: Result, some: seq<Event>, events: seq<Event>, watch: seq<int>, s: Sight,
                     a: nat, b: nat)
    requires var mid := Looks(cpu, watch, s, a);
             Outcome(cpu, r, some, watch, mid, b) && (a > 0 ==> !Announced(watch, mid))
    requires Suffix(some, events)
    ensures Outcome(cpu, r, events, watch, s, a + b)
  {
    hide Linked, BackAfter, SignalledAfter, Announced, Look;
    LooksAdd(cpu, watch, s, a, b);
    var mid := Looks(cpu, watch, s, a);
    if !r.threw && !r.dbg.quit {
      if BackAfter(cpu, r.dbg, watch, mid, b) {
        BackLater(cpu, r.dbg, watch, s, a, b);
      } else {
        SignalledLater(cpu, r.dbg, some, events, watch, s, a, b);
      }
    }
  }

  lemma SignalledResumed(cpu: Cpu, d: Dbg, events: seq<Event>, watch: seq<int>, s: Sight, k: nat)
    requires Idle(s) && !OnBreakpoint(s) && SignalledAfter(cpu, d, events, watch, s.(gait := Free), k)
    ensures SignalledAfter(cpu, d, events, watch, s, k)
  {
    hide AtSpot, Look, SignalSpot, IsBreakpoint;
    var free := s.(gait := Free);
    var i, hit :| 0 <= i < |events| && SignalledBy(cpu, d, events[i].async, watch, free, k, hit);
    Resumes(cpu, watch, s, k);
    LooksNext(cpu, watch, s, 0);
    LooksNext(cpu, watch, free, 0);
    var addr := Looks(cpu, watch, free, k).n.regs.rip - 1;
    if JustLeft(cpu, watch, free, k, addr) {
      var j :| 0 <= j <= k <= j + 2 && LeftAt(Looks(cpu, watch, free, j), addr);
      Resumes(cpu, watch, s, j);
      assert LeftAt(Looks(cpu, watch, s, j), addr);
    }
    assert SignalledBy(cpu, d, events[i].async, watch, s, k, hit);
  }

  lemma OutcomeResumed(cpu: Cpu, r: Result, events: seq<Event>, watch: seq<int>, s: Sight, k: nat)
    requires Idle(s) && !OnBreakpoint(s) && Outcome(cpu, r, events, watch, s.(gait := Free), k)
    requires Unseen(cpu, watch, s.(gait := Free), k)
    ensures Outcome(cpu, r, events, watch, s, k) && Unseen(cpu, watch, s, k)
  {
    hide Linked, AtSpot, SignalledAfter, OnBreakpoint, Trapped, Announced, SpotAfter, Look;
    if SignalledAfter(cpu, r.dbg, events, watch, s.(gait := Free), k) {
      SignalledResumed(cpu, r.dbg, events, watch, s, k);
    }
    var free := s.(gait := Free);
    Resumes(cpu, watch, s, k);
    LooksNext(cpu, watch, s, 0);
    LooksNext(cpu, watch, free, 0);
    forall j | 0 <= j < k ensures !Returns(watch, Looks(cpu, watch, s, j), j) {
      Resumes(cpu, watch, s, j);
      assert !Returns(watch, Looks(cpu, watch, free, j), j);
    }
  }

  /** The program leaves patched bytes alone, also from behind an int3 that a step executes in place of
      an instruction. */
  ghost predicate Careful(cpu: Cpu, s: Sight, patches: set<int>) {
    Respectful(cpu, s.n, patches) && (Misled(s) ==> Respectful(cpu, Moved(cpu, Slip, s.n), patches))
  }

  /** The onlooker at the beginning of a single step off a breakpoint. */
  ghost predicate Departs(cpu: Cpu, d: Dbg, n: Proc, s: Sight)
    requires d.signum < 128
  {
    && s.n == Received(cpu, d.signum, n) && s.entry == d.entry && s.events == d.events && n.regs == d.proc.regs
    && if d.signum == 0 then Idle(s) && OnBreakpoint(s) && s.bps == d.bps
       else s.gait == Diverted(n.regs.rip) && s.bps == TableOnLeaving(d)
  }

  lemma DepartsAs(cpu: Cpu, d: Dbg, n: Proc, s: Sight)
    requires d.signum < 128 && Departs(cpu, d, n, s)
    ensures Leaving(s) == TableOnLeaving(d) && (Misled(s) <==> Slips(d, s.n)) && Stepping(s)
    ensures LeftAt(s, d.proc.regs.rip)
  {
    hide IsBreakpoint, TakenOut;
  }

  /** The acts of a step. */
  lemma StepActs(cpu: Cpu, d: Dbg, n: Proc, s: Sight, over: bool, done: bool) returns (k: nat)
    requires WellBehaved(cpu) && d.signum < 128 && Departs(cpu, d, n, s)
    requires if over then done <==> !TooEarly(d.events, s.n) else done ==> !TooEarly(d.events, s.n)
    ensures var end := Looks(cpu, d.watch, s, k);
            && end.n == SteppedTo(cpu, d, s.n, done) && k <= 2 && (done || over <==> k > 0) && end.entry == s.entry
            && (k > 0 ==> end.gait.Free? && end.bps == TableOnLeaving(d) && end.events == Tail(d.events))
    ensures Unseen(cpu, d.watch, s, k)
  {
    hide WellBehaved, IsBreakpoint, Exec, TableOnLeaving, Slips;
    DepartsAs(cpu, d, n, s);
    var s1 := Look(cpu, d.watch, s);
    k := if !done && !over then 0 else if s1.gait.Midstep? then 2 else 1;
    LooksNext(cpu, d.watch, s, 0);
    LooksNext(cpu, d.watch, s, 1);
    LooksNext(cpu, d.watch, s1, 0);
    LooksNext(cpu, d.watch, Look(cpu, d.watch, s1), 0);
  }

  /** A single step off a breakpoint, as the onlooker sees it. */
  lemma StepSeen(cpu: Cpu, d: Dbg, n: Proc, s: Sight, patches: set<int>) returns (k: nat)
    requires WellBehaved(cpu) && Covers(d.bps, patches) && Respectful(cpu, n, patches) && Careful(cpu, s, patches)
    requires Linked(d.bps, d.proc, n) && d.signum < 128 && !d.quit
    requires Departs(cpu, d, n, s)
    ensures var r, end := SingleStep(cpu, d), Looks(cpu, d.watch, s, k);
            && Unseen(cpu, d.watch, s, k)
            && (if r.value then k > 0 && end.gait.Free? && !Announced(d.watch, end) && Watches(cpu, r.dbg, end, patches)
                else Outcome(cpu, r, d.events, d.watch, s, k))
            && Suffix(r.dbg.events, d.events)
  {
    hide WellBehaved, Covers, Respectful, Careful, Patched, SingleStep, IsBreakpoint, Exec, SignalledAfter, BackAfter;
    hide Look, TableOnLeaving, Slips, Instr;
    var done := StepsOnce(cpu, d, n, patches);
    k := StepActs(cpu, d, n, s, SingleStep(cpu, d).value, done);
    RespectfulLooks(cpu, d.watch, s, k, patches);
    var r := SingleStep(cpu, d);
    if !r.value && !r.threw && !r.dbg.quit {
      StepSignalled(cpu, d, n, r, s, done, k);
    }
  }

  lemma StepSignalled(cpu: Cpu, d: Dbg, n: Proc, r: Result, s: Sight, done: bool, k: nat)
    requires d.signum < 128 && Departs(cpu, d, n, s) && k <= 2 && (done <==> k > 0)
    requires var end := Looks(cpu, d.watch, s, k);
             && StepDone(d, r, end.n, done) && !r.value && !r.threw && !r.dbg.quit
             && (done ==> end.gait.Free? && end.bps == TableOnLeaving(d))
    ensures SignalledAfter(cpu, r.dbg, d.events, d.watch, s, k)
  {
    hide IsBreakpoint, AtSpot, SignalSpot, TableOnLeaving, Look;
    DepartsAs(cpu, d, n, s);
    LooksNext(cpu, d.watch, s, 0);
    var end := Looks(cpu, d.watch, s, k);
    var hit := StepHit(d, end.n);
    assert LeftAt(Looks(cpu, d.watch, s, 0), d.proc.regs.rip);
    assert SignalledBy(cpu, r.dbg, d.events[0].async, d.watch, s, k, hit);
  }

  lemma CallSeen(cpu: Cpu, d: Dbg, s: Sight, k: nat)
    requires d.signum == 0 && !d.quit && d.events != [] && k > 0
    requires var (d1, stop) := Awaited(cpu, d);
             var end := Looks(cpu, d.watch, s, k);
             var h := Handle(d1, stop, false, d.proc.regs.inSyscall);
             && !h.again && !h.dbg.quit && h.dbg.entry == end.entry && Announced(d.watch, end)
             && AtSpot(h.dbg, SpotAfter(cpu, d.watch, end, 1))
    ensures Outcome(cpu, WaitProgram(cpu, d, false), d.events, d.watch, s, k)
  {
    hide Handle, KernelRun, Looks, WaitProgram, Announced, AtSpot, SpotAfter, Trapped, SignalledAfter;
    WaitUnfolds(cpu, d, false);
    SpotAlike(cpu, d.watch, Looks(cpu, d.watch, s, k), k);
  }

  lemma SpotAlike(cpu: Cpu, watch: seq<int>, s: Sight, k: nat)
    requires k > 0
    ensures SpotAfter(cpu, watch, s, k) == SpotAfter(cpu, watch, s, 1)
  {
    hide Announced, Mistaken, OnBreakpoint, Exec, TakenOut;
  }

  lemma SignalSeen(cpu: Cpu, d: Dbg, sig: Signo, s: Sight, k: nat, fromSyscall: bool)
    requires d.signum == 0
    requires var end := Looks(cpu, d.watch, s, k);
             end.gait.Free? && end.bps == d.bps && end.entry == d.entry && Linked(d.bps, d.proc, end.n)
    ensures var h := Handle(d, External(sig), false, fromSyscall);
            var hit := IsBreakpoint(d.bps, Looks(cpu, d.watch, s, k).n.regs.rip - 1);
            && !h.again && h.dbg.quit == d.quit && h.dbg.entry == d.entry
            && SignalledBy(cpu, h.dbg, Signal(sig), d.watch, s, k, hit)
  {
    hide Handle, Looks, Linked, SignalSpot, IsBreakpoint, JustLeft;
    HandleSignal(d, sig, false, fromSyscall, Looks(cpu, d.watch, s, k).n);
  }

  lemma WaitSignalled(cpu: Cpu, d: Dbg, s: Sight, k: nat)
    requires d.signum == 0 && !d.quit && d.events != []
    requires var (d1, stop) := Awaited(cpu, d);
             stop.External? && RunSeen(cpu, (d1.proc, stop), d.events[0].async, s, Looks(cpu, d.watch, s, k))
    requires s.bps == d.bps && s.entry == d.entry
    ensures Outcome(cpu, WaitProgram(cpu, d, false), d.events, d.watch, s, k)
  {
    hide Handle, KernelRun, Looks, WaitProgram, SignalledBy, BackAfter, Linked, IsBreakpoint, Trapped;
    WaitUnfolds(cpu, d, false);
    var (d1, stop) := Awaited(cpu, d);
    SignalSeen(cpu, d1, stop.sig, s, k, d.proc.regs.inSyscall);
    assert d.events[0].async == Signal(stop.sig);
  }

  lemma TrapSeen(cpu: Cpu, d: Dbg, async: Async, s: Sight, k: nat, fromSyscall: bool)
    requires d.signum == 0 && s.bps == d.bps && s.entry == d.entry
    requires RunSeen(cpu, (d.proc, Break), async, s, Looks(cpu, d.watch, s, k))
    ensures var h := Handle(d, Break, false, fromSyscall);
            && !h.again && h.dbg.quit == d.quit && h.dbg.entry == Looks(cpu, d.watch, s, k).entry
            && BackAfter(cpu, h.dbg, d.watch, s, k)
  {
    hide Handle, Patched, GetBreakpoint, Look, Looks, Exec, Trapped;
    var end := Looks(cpu, d.watch, s, k);
    HandleTrap(d, if OnBreakpoint(end) then end.n else Exec(cpu, Step, end.n), fromSyscall);
  }

  lemma WaitTrapped(cpu: Cpu, d: Dbg, s: Sight, k: nat)
    requires d.signum == 0 && !d.quit && d.events != []
    requires var (d1, stop) := Awaited(cpu, d);
             stop == Break && RunSeen(cpu, (d1.proc, stop), d.events[0].async, s, Looks(cpu, d.watch, s, k))
    requires s.bps == d.bps && s.entry == d.entry
    ensures Outcome(cpu, WaitProgram(cpu, d, false), d.events, d.watch, s, k)
  {
    hide Handle, RunSeen, BackAfter, KernelRun, Looks, WaitProgram;
    WaitUnfolds(cpu, d, false);
    TrapSeen(cpu, Awaited(cpu, d).0, d.events[0].async, s, k, d.proc.regs.inSyscall);
  }

  lemma RespectfulLooks(cpu: Cpu, watch: seq<int>, s: Sight, k: nat, patches: set<int>)
    requires Careful(cpu, s, patches)
    ensures Respectful(cpu, Looks(cpu, watch, s, k).n, patches)
    decreases k
  {
    hide Exec, Respectful, IsBreakpoint;
    if k > 0 {
      assert Native(cpu, s.n, [Step]) == Exec(cpu, Step, s.n);
      RespectfulNative(cpu, s.n, [Step], patches);
      RespectfulLooks(cpu, watch, Look(cpu, watch, s), k - 1, patches);
    }
  }

  /** One run, and the stop that it ends with. */
  lemma AwaitedSeen(cpu: Cpu, d: Dbg, s: Sight, patches: set<int>) returns (k: nat)
    requires Watches(cpu, d, s, patches) && s.gait.Free? && d.mode == ModeFor(d.watch) && d.events != []
    ensures Unseen(cpu, d.watch, s, k)
    ensures var (d1, stop) := Awaited(cpu, d);
            var h := Handle(d1, stop, false, d.proc.regs.inSyscall);
            var end := Looks(cpu, d.watch, s, k);
            if h.again then Watches(cpu, h.dbg, end, patches) && end.gait.Call? && !Announced(d.watch, end)
            else Outcome(cpu, WaitProgram(cpu, d, false), d.events, d.watch, s, k)
  {
    hide WellBehaved, Covers, Respectful, Patched, Handle, Look, Looks, Trapped, Announced, IsBreakpoint, Run, Exec;
    hide BackAfter, SignalledAfter, WaitProgram;
    var ev := d.events[0];
    var budget := if ev.budget == 0 && d.proc.regs.inSyscall && ev.async.Signal? then 1 else ev.budget;
    k := RunStopsAtFirst(cpu, d.watch, d.proc, s, budget, ev.async, patches);
    var end := Looks(cpu, d.watch, s, k);
    var (d1, stop) := Awaited(cpu, d);
    WaitUnfolds(cpu, d, false);
    LooksNext(cpu, d.watch, s, 0);
    match stop {
      case Break =>
        TrapSeen(cpu, d1, ev.async, s, k, d.proc.regs.inSyscall);
        WaitTrapped(cpu, d, s, k);
      case SyscallStop =>
        HandleCall(cpu, d1, end, d.proc.regs.inSyscall);
        if Handle(d1, stop, false, d.proc.regs.inSyscall).again {
          RespectfulLooks(cpu, d.watch, s, k, patches);
        } else {
          CallSeen(cpu, d, s, k);
        }
      case Ended => HandleEnd(d1, d.proc.regs.inSyscall);
      case External(sig) =>
        HandleSignal(d1, sig, false, d.proc.regs.inSyscall, end.n);
        WaitSignalled(cpu, d, s, k);
      case Stepped =>
        assert false;
    }
  }

  lemma {:induction false} WaitSeen(cpu: Cpu, d: Dbg, s: Sight, patches: set<int>) returns (k: nat)
    requires Watches(cpu, d, s, patches) && s.gait.Free? && d.mode == ModeFor(d.watch)
    ensures Unseen(cpu, d.watch, s, k) && Outcome(cpu, WaitProgram(cpu, d, false), d.events, d.watch, s, k)
    decreases |d.events|, 0
  {
    hide Linked, WellBehaved, Covers, Respectful, Handle, Look, Trapped, Announced, KernelRun, BackAfter;
    hide SignalledAfter;
    k := 0;
    LooksNext(cpu, d.watch, s, 0);
    if d.events != [] {
      k := AwaitedSeen(cpu, d, s, patches);
      var (d1, stop) := Awaited(cpu, d);
      var h := Handle(d1, stop, false, d.proc.regs.inSyscall);
      if h.again {
        var more := ContinueSeen(cpu, h.dbg, Looks(cpu, d.watch, s, k), patches);
        UnseenAdd(cpu, d.watch, s, k, more);
        OutcomeLater(cpu, ContinueExecution(cpu, h.dbg), h.dbg.events, d.events, d.watch, s, k, more);
        k := k + more;
      }
    }
  }

  lemma {:induction false} ContinueSeen(cpu: Cpu, d: Dbg, s: Sight, patches: set<int>) returns (k: nat)
    requires Watches(cpu, d, s, patches) && Idle(s)
    ensures Unseen(cpu, d.watch, s, k) && Outcome(cpu, ContinueExecution(cpu, d), d.events, d.watch, s, k)
    decreases |d.events|, 2
  {
    hide BackAfter, SignalledAfter;
    hide WellBehaved, Covers, Respectful, Patched, SingleStep, WaitProgram, Look, Trapped, Announced, GetBreakpoint;
    hide Exec;
    if OnBreakpoint(s) {
      k := ContinueStepped(cpu, d, s.n, s, patches);
    } else {
      k := WaitSeen(cpu, Resume(cpu, d, ModeFor(d.watch)), s.(gait := Free), patches);
      OutcomeResumed(cpu, ContinueExecution(cpu, d), d.events, d.watch, s, k);
    }
  }

  /** A continue from a breakpoint. */
  lemma {:induction false} ContinueStepped(cpu: Cpu, d: Dbg, n: Proc, s: Sight, patches: set<int>) returns (k: nat)
    requires WellBehaved(cpu) && Covers(d.bps, patches) && Respectful(cpu, n, patches) && Careful(cpu, s, patches)
    requires Linked(d.bps, d.proc, n) && d.signum < 128 && !d.quit
    requires Departs(cpu, d, n, s) && IsBreakpoint(d.bps, n.regs.rip)
    ensures Unseen(cpu, d.watch, s, k) && Outcome(cpu, ContinueExecution(cpu, d), d.events, d.watch, s, k)
    decreases |d.events|, 1
  {
    hide WellBehaved, Covers, Respectful, Careful, Patched, SingleStep, WaitProgram, Look, Trapped, Announced;
    hide BackAfter, SignalledAfter, GetBreakpoint, Exec, Departs;
    k := StepSeen(cpu, d, n, s, patches);
    var r := SingleStep(cpu, d);
    if r.value {
      var mid := Looks(cpu, d.watch, s, k);
      var more := WaitSeen(cpu, Resume(cpu, r.dbg, ModeFor(d.watch)), mid, patches);
      UnseenAdd(cpu, d.watch, s, k, more);
      OutcomeLater(cpu, ContinueExecution(cpu, d), r.dbg.events, d.events, d.watch, s, k, more);
      k := k + more;
    }
  }

  /** A continue with a signal pending, away from breakpoints. */
  lemma ContinueSignalled(cpu: Cpu, d: Dbg, n: Proc, patches: set<int>) returns (k: nat)
    requires WellBehaved(cpu) && Covers(d.bps, patches) && Respectful(cpu, n, patches)
    requires Linked(d.bps, d.proc, n) && 0 < d.signum < 128 && !d.quit
    requires !IsBreakpoint(d.bps, n.regs.rip)
    ensures var s := Start(cpu, d, n);
            Unseen(cpu, d.watch, s, k) && Outcome(cpu, ContinueExecution(cpu, d), d.events, d.watch, s, k)
  {
    hide WellBehaved, Covers, Respectful, Patched, WaitProgram, Outcome, Unseen, IsBreakpoint, Exec;
    ReceivedLinked(cpu, d, ModeFor(d.watch), n, patches);
    k := WaitSeen(cpu, Resume(cpu, d, ModeFor(d.watch)), Start(cpu, d, n), patches);
  }

  /** A continue delivers the pending signal and comes back at the first trap, the first stop at a watched
      call with the entry flag set, or the first stop at a call that looks like a breakpoint hit, and in
      exactly the state that the undebugged program has there, unless a signal comes, the process ends or
      the wait fails before; whatever system calls are or have been watched. */
  lemma ContinueStopsAtFirst(cpu: Cpu, d: Dbg, n: Proc, patches: set<int>) returns (k: nat)
    requires WellBehaved(cpu) && Covers(d.bps, patches) && Respectful(cpu, n, patches)
    requires Linked(d.bps, d.proc, n) && d.signum < 128 && !d.quit
    requires Careful(cpu, Start(cpu, d, n), patches)
    ensures var start := Start(cpu, d, n);
            && SetsOut(start) && Unseen(cpu, d.watch, start, k)
            && Outcome(cpu, ContinueExecution(cpu, d), d.events, d.watch, start, k)
  {
    hide WellBehaved, Covers, Respectful, Careful, Patched, ContinueExecution, Outcome, Unseen, IsBreakpoint, Exec;
    var s := Start(cpu, d, n);
    StartSetsOut(cpu, d, n);
    if d.signum == 0 {
      k := ContinueSeen(cpu, d, s, patches);
    } else if IsBreakpoint(d.bps, n.regs.rip) {
      k := ContinueStepped(cpu, d, n, s, patches);
    } else {
      k := ContinueSignalled(cpu, d, n, patches);
    }
  }

  // ---- Breakpoints passed over ----

  lemma LooksSnoc(cpu: Cpu, watch: seq<int>, s: Sight, j: nat)
    ensures Looks(cpu, watch, s, j + 1) == Look(cpu, watch, Looks(cpu, watch, s, j))
  {
    hide Look;
    LooksAdd(cpu, watch, s, j, 1);
    LooksNext(cpu, watch, Looks(cpu, watch, s, j), 0);
    LooksNext(cpu, watch, Look(cpu, watch, Looks(cpu, watch, s, j)), 0);
  }

  /** How continue finds the program, or the signal that it delivers leaves it. */
  predicate SetsOut(s: Sight) {
    s.gait.Prompt? || (!s.n.regs.inSyscall && (s.gait.Free? || s.gait.Diverted?))
  }

  lemma StartSetsOut(cpu: Cpu, d: Dbg, n: Proc)
    requires WellBehaved(cpu) && d.signum < 128
    ensures SetsOut(Start(cpu, d, n))
  {
  }

  /** With system call breakpoints, the inside of a call is only seen from a stop or within a step. */
  lemma {:induction false} InsideCalls(cpu: Cpu, watch: seq<int>, s: Sight, j: nat)
    requires WellBehaved(cpu) && SetsOut(s) && watch != []
    ensures var t := Looks(cpu, watch, s, j);
            && (t.gait.Free? || t.gait.Diverted? ==> !t.n.regs.inSyscall)
            && (t.gait.Midstep? ==> t.n.regs.inSyscall)
    decreases j
  {
    if j > 0 {
      InsideCalls(cpu, watch, s, j - 1);
      LooksSnoc(cpu, watch, s, j - 1);
      hide Looks;
      var u := Looks(cpu, watch, s, j - 1);
      assert u.n.regs.inSyscall ==> !Exec(cpu, Step, u.n).regs.inSyscall;
    }
  }

  /** A breakpoint on which the program stands at the entry of a call is hit when the call returns to
      it exactly if it is permanent: a temporary one has been used up by the step out of the call. */
  lemma BehindCallIff(cpu: Cpu, watch: seq<int>, s: Sight)
    requires WellBehaved(cpu) && Distinct(s.bps) && Idle(s) && s.n.regs.inSyscall && OnBreakpoint(s)
    ensures var t := Look(cpu, watch, s);
            t.n.regs.rip == s.n.regs.rip && !AtInt3(t.n) ==>
              (Trapped(t) <==> !s.bps[GetBreakpoint(s.bps, s.n.regs.rip)].temp)
  {
    var t, rip := Look(cpu, watch, s), s.n.regs.rip;
    var i := GetBreakpoint(s.bps, rip);
    assert !t.n.regs.inSyscall;
    if s.bps[i].temp {
      assert forall j :: 0 <= j < |t.bps| ==> !LiveAt(t.bps[j], rip);
    }
  }

  /** A live breakpoint that the program comes to is passed over exactly if it is where a system call
      is left that has been entered with no breakpoint at RIP, and its exit stop is not announced. */
  lemma PassedOverIff(cpu: Cpu, watch: seq<int>, s: Sight, j: nat)
    requires WellBehaved(cpu) && SetsOut(s)
    requires var t := Looks(cpu, watch, s, j + 1); OnBreakpoint(t) && !t.n.regs.inSyscall
    ensures var u, t := Looks(cpu, watch, s, j), Looks(cpu, watch, s, j + 1);
            !Returns(watch, t, j + 1)
            <==> watch != [] && Idle(u) && u.n.regs.inSyscall && !OnBreakpoint(u) && !Announced(watch, t)
  {
    LooksSnoc(cpu, watch, s, j);
    if watch != [] {
      InsideCalls(cpu, watch, s, j);
    }
    hide Looks, WellBehaved, Exec, IsBreakpoint, InSyscalls;
  }
}
