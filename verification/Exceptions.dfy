/**
 try / catch / finally / etry and throw, which macros build from setjmp, longjmp, a switch and an
 explicit stack of environments.

 `Step` is that machine. `Eval` says compositionally what it computes, for every program;
 `Textbook` is what structured exceptions are expected to do.
 */
module Exceptions {

  const NONE: nat := 0
  const EXCEPTION: nat := 1
  const IO_EXCEPTION: nat := 6

  /** `Save` and its kin work on a local variable that remembers an exception; in a handler or a
      finally block, and in the body of a try, `ex` is the innermost try's own. */
  datatype Stmt =
    | Skip
    | Print(text: int)
    | Throw(ex: nat)
    | Seq(first: Stmt, second: Stmt)
    | Try(body: Stmt, clauses: Clauses, last: Stmt)
    | Clear(x: string)
    | Save(x: string)
    | SaveFirst(x: string)
    | Rethrow(x: string)

  datatype Clauses = NoClause | Catch(exs: seq<nat>, handler: Stmt, rest: Clauses)

  datatype Store = Store(vars: map<string, nat>, out: seq<int>)

  function Get(st: Store, x: string): nat {
    if x in st.vars then st.vars[x] else NONE
  }

  function Set(st: Store, x: string, ex: nat): Store {
    st.(vars := st.vars[x := ex])
  }

  lemma GetSet(st: Store, x: string, ex: nat, y: string)
    ensures Get(Set(st, x, ex), y) == (if y == x then ex else Get(st, y)) && Set(st, x, ex).out == st.out
  {
  }

  /** setjmp returns 1 if longjmp is given 0. */
  function Returned(ex: nat): nat {
    if ex == NONE then EXCEPTION else ex
  }

  // ---- Sizes ----

  function Size(s: Stmt): nat {
    match s
    case Seq(a, b) => 1 + Size(a) + Size(b)
    case Try(body, clauses, last) => 2 + Size(body) + ClausesSize(clauses) + Size(last)
    case _ => 0
  }

  function ClausesSize(c: Clauses): nat {
    match c
    case NoClause => 0
    case Catch(_, handler, rest) => 1 + Size(handler) + ClausesSize(rest)
  }

  function Handler(c: Clauses, ex: nat): (s: Stmt)
    ensures Size(s) <= ClausesSize(c)
  {
    match c
    case NoClause => Skip
    case Catch(exs, handler, rest) => if ex in exs then handler else Handler(rest, ex)
  }

  // ---- The clauses of a try ----

  datatype Clause = Clause(exs: seq<nat>, handler: Stmt)

  function ClauseList(c: Clauses): seq<Clause> {
    match c
    case NoClause => []
    case Catch(exs, handler, rest) => [Clause(exs, handler)] + ClauseList(rest)
  }

  ghost predicate Unlisted(clauses: seq<Clause>, ex: nat) {
    forall j :: 0 <= j < |clauses| ==> ex !in clauses[j].exs
  }

  /** `k` is the first clause that lists `ex`. */
  ghost predicate FirstListing(clauses: seq<Clause>, ex: nat, k: int) {
    0 <= k < |clauses| && ex in clauses[k].exs && Unlisted(clauses[..k], ex)
  }

  lemma UnlistedNext(first: Clause, more: seq<Clause>, ex: nat)
    requires Unlisted(more, ex) && ex !in first.exs
    ensures Unlisted([first] + more, ex)
  {
    var list := [first] + more;
    forall j | 0 <= j < |list| ensures ex !in list[j].exs {
      if j > 0 { assert list[j] == more[j - 1]; }
    }
  }

  /** The handler that a switch runs is that of the first clause that lists the exception, and none is
      run exactly if no clause lists it. */
  lemma {:induction false} HandlerIsFirst(c: Clauses, ex: nat) returns (k: int)
    ensures var list := ClauseList(c);
            if k == -1 then Unlisted(list, ex) && Handler(c, ex) == Skip
            else FirstListing(list, ex, k) && Handler(c, ex) == list[k].handler
    decreases c
  {
    match c {
      case NoClause => k := -1;
      case Catch(exs, handler, rest) =>
        if ex in exs {
          k := 0;
        } else {
          k := HandlerIsFirst(rest, ex);
          var first, more := Clause(exs, handler), ClauseList(rest);
          if k == -1 {
            UnlistedNext(first, more, ex);
          } else {
            UnlistedNext(first, more[..k], ex);
            k := k + 1;
            assert ([first] + more)[..k] == [first] + more[..k - 1];
          }
        }
    }
  }

  /** What the switch runs when setjmp returns `ex`. Breaking out of the inner loop, after the body
      as after a handler, falls into the default label, and so does an exception without a label.
      A try without finally has nothing there. */
  function Arm(t: Stmt, ex: nat): (s: Stmt)
    requires t.Try?
    ensures Size(s) < Size(t)
  {
    Seq(if ex == NONE then t.body else Handler(t.clauses, ex), t.last)
  }

  // ---- The machine ----

  /** `Leave` is the delete_env() at the end of a try. */
  datatype Frame = Do(s: Stmt, ex: nat) | Leave

  /** A jmp_buf: jumping to it goes back into the switch of `t`, with `rest` to do after that. */
  datatype Env = Env(t: Stmt, rest: seq<Frame>)

  datatype Machine =
    | Running(control: seq<Frame>, envs: seq<Env>, st: Store)
    | Uncaught(ex: nat, st: Store)
    | Stuck

  function Enter(t: Stmt, ex: nat, rest: seq<Frame>): seq<Frame>
    requires t.Try?
  {
    [Do(Arm(t, ex), ex), Leave] + rest
  }

  /** throw_exception: the environment jumped to stays on the stack. */
  function Raise(ex: nat, envs: seq<Env>, st: Store): Machine {
    if envs == [] then Uncaught(ex, st)
    else if !envs[0].t.Try? then Stuck
    else Running(Enter(envs[0].t, Returned(ex), envs[0].rest), envs, st)
  }

  predicate Halted(m: Machine) {
    !m.Running? || m.control == []
  }

  function Step(m: Machine): Machine {
    if Halted(m) then m
    else
      var rest := m.control[1..];
      match m.control[0]
      case Leave => if m.envs == [] then Stuck else Running(rest, m.envs[1..], m.st)
      case Do(s, ex) =>
        match s
        case Skip => m.(control := rest)
        case Print(text) => m.(control := rest, st := m.st.(out := m.st.out + [text]))
        case Throw(e) => Raise(e, m.envs, m.st)
        case Seq(a, b) => m.(control := [Do(a, ex), Do(b, ex)] + rest)
        case Try(_, _, _) => m.(control := Enter(s, NONE, rest), envs := [Env(s, rest)] + m.envs)
        case Clear(x) => m.(control := rest, st := Set(m.st, x, NONE))
        case Save(x) => m.(control := rest, st := Set(m.st, x, ex))
        case SaveFirst(x) => m.(control := rest, st := if Get(m.st, x) == NONE then Set(m.st, x, ex) else m.st)
        case Rethrow(x) => if Get(m.st, x) == NONE then m.(control := rest) else Raise(Get(m.st, x), m.envs, m.st)
  }

  function Run(m: Machine, n: nat): Machine
    decreases n
  {
    if n == 0 then m else Run(Step(m), n - 1)
  }

  lemma {:induction false} RunAdd(m: Machine, a: nat, b: nat)
    ensures Run(m, a + b) == Run(Run(m, a), b)
    decreases a
  {
    if a > 0 {
      RunAdd(Step(m), a - 1, b);
    }
  }

  lemma {:induction false} HaltedStays(m: Machine, n: nat)
    requires Halted(m)
    ensures Run(m, n) == m
    decreases n
  {
    if n > 0 {
      HaltedStays(m, n - 1);
    }
  }

  // ---- What it computes ----

  datatype Res = Done(st: Store) | Threw(ex: nat, st: Store) | OutOfFuel

  function Eval(s: Stmt, ex: nat, st: Store, fuel: nat): Res
    decreases fuel, Size(s), 1
  {
    match s
    case Skip => Done(st)
    case Print(text) => Done(st.(out := st.out + [text]))
    case Throw(e) => Threw(e, st)
    case Seq(a, b) => (match Eval(a, ex, st, fuel) case Done(st1) => Eval(b, ex, st1, fuel) case r => r)
    case Try(_, _, _) => EvalTry(s, NONE, st, fuel)
    case Clear(x) => Done(Set(st, x, NONE))
    case Save(x) => Done(Set(st, x, ex))
    case SaveFirst(x) => Done(if Get(st, x) == NONE then Set(st, x, ex) else st)
    case Rethrow(x) => if Get(st, x) == NONE then Done(st) else Threw(Get(st, x), st)
  }

  /** A try is a loop: whatever its body, a handler or its finally block throws comes back to its
      own switch. Each jump costs one unit of fuel. */
  function EvalTry(t: Stmt, ex: nat, st: Store, fuel: nat): Res
    requires t.Try?
    decreases fuel, Size(t), 0
  {
    match Eval(Arm(t, ex), ex, st, fuel)
    case Done(st1) => Done(st1)
    case Threw(e, st1) => if fuel == 0 then OutOfFuel else EvalTry(t, Returned(e), st1, fuel - 1)
    case OutOfFuel => OutOfFuel
  }

  /** Whether `m` is where `r` says, with everything outside of the statement untouched. */
  ghost predicate Arrived(r: Res, m: Machine, rest: seq<Frame>, envs: seq<Env>, fuel: nat, n: nat) {
    match r
    case Done(st) => m == Running(rest, envs, st)
    case Threw(e, st) => n > 0 && m == Raise(e, envs, st)
    case OutOfFuel => n >= fuel && !Halted(m)
  }

  /** For every program, in any surroundings: the machine gets to where `Eval` says, in some number
      of steps, and leaves the environment stack as it was; if `Eval` runs out of fuel, the machine
      has run for that many steps without halting. */
  lemma {:induction false} Simulates(s: Stmt, ex: nat, st: Store, fuel: nat, rest: seq<Frame>, envs: seq<Env>)
    returns (n: nat)
    ensures Arrived(Eval(s, ex, st, fuel), Run(Running([Do(s, ex)] + rest, envs, st), n), rest, envs, fuel, n)
    decreases fuel, Size(s), 1
  {
    var m := Running([Do(s, ex)] + rest, envs, st);
    assert m.control[1..] == rest;
    match s {
      case Seq(a, b) =>
        var more := [Do(b, ex)] + rest;
        assert Step(m) == Running([Do(a, ex)] + more, envs, st) by {
          assert [Do(a, ex), Do(b, ex)] + rest == [Do(a, ex)] + more;
        }
        var na := Simulates(a, ex, st, fuel, more, envs);
        n := 1 + na;
        match Eval(a, ex, st, fuel) {
          case Done(st1) =>
            var nb := Simulates(b, ex, st1, fuel, rest, envs);
            RunAdd(Step(m), na, nb);
            n := 1 + na + nb;
          case _ =>
        }
      case Try(_, _, _) =>
        var nt := SimulatesTry(s, NONE, st, fuel, rest, envs);
        n := 1 + nt;
      case _ =>
        n := 1;
        assert Run(m, 1) == Step(m);
    }
  }

  lemma {:induction false} SimulatesTry(t: Stmt, ex: nat, st: Store, fuel: nat, rest: seq<Frame>, envs: seq<Env>)
    returns (n: nat)
    requires t.Try?
    ensures var inside := Running(Enter(t, ex, rest), [Env(t, rest)] + envs, st);
            Arrived(EvalTry(t, ex, st, fuel), Run(inside, n), rest, envs, fuel, n)
    ensures !EvalTry(t, ex, st, fuel).Threw?
    decreases fuel, Size(t), 0
  {
    var here := [Env(t, rest)] + envs;
    var m := Running(Enter(t, ex, rest), here, st);
    var arm := Arm(t, ex);
    assert m.control == [Do(arm, ex)] + ([Leave] + rest);
    n := Simulates(arm, ex, st, fuel, [Leave] + rest, here);
    match Eval(arm, ex, st, fuel) {
      case Done(st1) =>
        RunAdd(m, n, 1);
        var m1 := Running([Leave] + rest, here, st1);
        assert Run(m1, 1) == Step(m1) == Running(rest, envs, st1);
        n := n + 1;
      case Threw(e, st1) =>
        if fuel > 0 {
          var more := SimulatesTry(t, Returned(e), st1, fuel - 1, rest, envs);
          RunAdd(m, n, more);
          n := n + more;
        }
      case OutOfFuel =>
    }
  }

  // ---- Whole programs ----

  function Start(s: Stmt, st: Store): Machine {
    Running([Do(s, NONE)], [], st)
  }

  /** How a whole program ends. */
  function Final(r: Res): Machine
    requires !r.OutOfFuel?
  {
    match r
    case Done(st) => Running([], [], st)
    case Threw(e, st) => Uncaught(e, st)
  }

  /** The machine halts exactly if `Eval` has a result for some amount of fuel, and then it is that
      result, with no environment left on the stack. */
  lemma MachineIsEval(s: Stmt, st: Store, fuel: nat) returns (n: nat)
    ensures var r := Eval(s, NONE, st, fuel);
            if r.OutOfFuel? then n >= fuel && !Halted(Run(Start(s, st), n)) else Run(Start(s, st), n) == Final(r)
  {
    n := Simulates(s, NONE, st, fuel, [], []);
    assert [Do(s, NONE)] + [] == [Do(s, NONE)];
  }

  lemma HaltsIff(s: Stmt, st: Store)
    ensures (exists n: nat :: Halted(Run(Start(s, st), n))) <==> exists fuel: nat :: !Eval(s, NONE, st, fuel).OutOfFuel?
  {
    if n: nat :| Halted(Run(Start(s, st), n)) {
      var k := MachineIsEval(s, st, n);
      if Eval(s, NONE, st, n).OutOfFuel? {
        RunAdd(Start(s, st), n, k - n);
        HaltedStays(Run(Start(s, st), n), k - n);
        assert false;
      }
    }
    if fuel: nat :| !Eval(s, NONE, st, fuel).OutOfFuel? {
      var k := MachineIsEval(s, st, fuel);
      assert Halted(Run(Start(s, st), k));
    }
  }

  // ---- The environment stack ----

  function Leaves(control: seq<Frame>): nat {
    if control == [] then 0 else (if control[0].Leave? then 1 else 0) + Leaves(control[1..])
  }

  /** Every environment stands for one try that is still to be left, also after a jump to it. */
  ghost predicate Balanced(control: seq<Frame>, envs: seq<Env>)
    decreases |envs|
  {
    && Leaves(control) == |envs|
    && (envs != [] ==> envs[0].t.Try? && Balanced(envs[0].rest, envs[1..]))
  }

  lemma {:induction false} StepBalanced(m: Machine)
    requires m.Running? && Balanced(m.control, m.envs)
    ensures Step(m) != Stuck
    ensures Step(m).Running? ==> Balanced(Step(m).control, Step(m).envs)
  {
    if !Halted(m) {
      var rest := m.control[1..];
      match m.control[0] {
        case Leave =>
          assert m.envs != [];
          if m.envs[1..] != [] { assert Balanced(m.envs[0].rest, m.envs[1..]); }
        case Do(s, ex) =>
          match s {
            case Seq(a, b) =>
              assert ([Do(a, ex), Do(b, ex)] + rest)[1..] == [Do(b, ex)] + rest;
              assert ([Do(b, ex)] + rest)[1..] == rest;
            case Try(_, _, _) =>
              EnterLeaves(s, NONE, rest);
              assert ([Env(s, rest)] + m.envs)[1..] == m.envs;
            case Throw(e) =>
              if m.envs != [] { EnterLeaves(m.envs[0].t, Returned(e), m.envs[0].rest); }
            case Rethrow(x) =>
              if m.envs != [] { EnterLeaves(m.envs[0].t, Returned(Get(m.st, x)), m.envs[0].rest); }
            case _ =>
          }
      }
    }
  }

  lemma EnterLeaves(t: Stmt, ex: nat, rest: seq<Frame>)
    requires t.Try?
    ensures Leaves(Enter(t, ex, rest)) == 1 + Leaves(rest)
  {
    var c := Enter(t, ex, rest);
    assert c[1..] == [Leave] + rest && c[1..][1..] == rest;
  }

  lemma {:induction false} RunBalanced(m: Machine, n: nat)
    requires m.Running? && Balanced(m.control, m.envs)
    ensures Run(m, n) != Stuck
    ensures Run(m, n).Running? ==> Balanced(Run(m, n).control, Run(m, n).envs)
    decreases n
  {
    if n > 0 {
      StepBalanced(m);
      if Step(m).Running? {
        RunBalanced(Step(m), n - 1);
      } else {
        HaltedStays(Step(m), n - 1);
      }
    }
  }

  /** At every moment of every program `ex_depth` is the number of tries entered and not left, and
      no `delete_env` finds the stack empty. */
  lemma DepthIsActiveTries(s: Stmt, st: Store, n: nat)
    ensures var m := Run(Start(s, st), n);
            m != Stuck && (m.Running? ==> |m.envs| == Leaves(m.control))
  {
    RunBalanced(Start(s, st), n);
  }

  // ---- Structured exceptions ----

  /** Of a list of clauses, the handler of the first that lists the exception. */
  ghost function Chosen(clauses: seq<Clause>, ex: nat): Stmt {
    if exists k :: FirstListing(clauses, ex, k) then
      var k :| FirstListing(clauses, ex, k);
      clauses[k].handler
    else Skip
  }

  lemma UnlistedBefore(clauses: seq<Clause>, ex: nat, k: nat, j: nat)
    requires j < k <= |clauses| && Unlisted(clauses[..k], ex)
    ensures ex !in clauses[j].exs
  {
    assert clauses[..k][j] == clauses[j];
  }

  lemma FirstOnly(clauses: seq<Clause>, ex: nat, j: int, k: int)
    requires FirstListing(clauses, ex, j) && FirstListing(clauses, ex, k)
    ensures !(j < k)
  {
    hide Unlisted;
    if j < k { UnlistedBefore(clauses, ex, k, j); }
  }

  lemma ChosenIsHandler(c: Clauses, ex: nat)
    ensures Chosen(ClauseList(c), ex) == Handler(c, ex)
  {
    var k := HandlerIsFirst(c, ex);
    var list := ClauseList(c);
    if k != -1 {
      assert FirstListing(list, ex, k);
      forall j | FirstListing(list, ex, j) ensures j == k {
        FirstOnly(list, ex, j, k);
        FirstOnly(list, ex, k, j);
      }
    }
  }

  /** A handler's exception goes on to the surrounding try after the finally block. An exception
      that no clause names ends at the try, which is what `etry` promises here. */
  ghost function Textbook(s: Stmt, ex: nat, st: Store): (r: Res)
    ensures !r.OutOfFuel?
    decreases Size(s)
  {
    match s
    case Skip => Done(st)
    case Print(text) => Done(st.(out := st.out + [text]))
    case Throw(e) => Threw(e, st)
    case Seq(a, b) =>
      var r := Textbook(a, ex, st);
      if r.Done? then Textbook(b, ex, r.st) else r
    case Try(body, clauses, last) =>
      var r := Textbook(body, NONE, st);
      if r.Done? then Textbook(last, NONE, r.st)
      else
        var caught := if r.ex == NONE then EXCEPTION else r.ex;
        ChosenIsHandler(clauses, caught);
        var r1 := Textbook(Chosen(ClauseList(clauses), caught), caught, r.st);
        var r2 := Textbook(last, caught, r1.st);
        if r1.Threw? && r2.Done? then Threw(r1.ex, r2.st) else r2
    case Clear(x) => Done(Set(st, x, NONE))
    case Save(x) => Done(Set(st, x, ex))
    case SaveFirst(x) => Done(if Get(st, x) == NONE then Set(st, x, ex) else st)
    case Rethrow(x) => if Get(st, x) == NONE then Done(st) else Threw(Get(st, x), st)
  }

  /** The handler and the finally block that a try comes to end normally. */
  ghost predicate ArmEnds(t: Stmt, st: Store)
    requires t.Try?
  {
    var r := Textbook(t.body, NONE, st);
    if r.Done? then Textbook(t.last, NONE, r.st).Done?
    else
      var r1 := Textbook(Chosen(ClauseList(t.clauses), Returned(r.ex)), Returned(r.ex), r.st);
      r1.Done? && Textbook(t.last, Returned(r.ex), r1.st).Done?
  }

  /** No handler and no finally block that is run throws. */
  ghost predicate Calm(s: Stmt, ex: nat, st: Store)
    decreases Size(s)
  {
    match s
    case Seq(a, b) => Calm(a, ex, st) && (Textbook(a, ex, st).Done? ==> Calm(b, ex, Textbook(a, ex, st).st))
    case Try(_, _, _) => CalmInside(s, st) && ArmEnds(s, st)
    case _ => true
  }

  ghost predicate CalmInside(t: Stmt, st: Store)
    requires t.Try?
    decreases Size(t), 0
  {
    && Calm(t.body, NONE, st)
    && var r := Textbook(t.body, NONE, st);
       if r.Done? then Calm(t.last, NONE, r.st)
       else
         ChosenIsHandler(t.clauses, Returned(r.ex));
         var h := Chosen(ClauseList(t.clauses), Returned(r.ex));
         var r1 := Textbook(h, Returned(r.ex), r.st);
         Calm(h, Returned(r.ex), r.st) && (r1.Done? ==> Calm(t.last, Returned(r.ex), r1.st))
  }

  lemma ArmRuns(t: Stmt, ex: nat, st: Store, fuel: nat)
    requires t.Try?
    ensures var r := Eval(if ex == NONE then t.body else Handler(t.clauses, ex), ex, st, fuel);
            Eval(Arm(t, ex), ex, st, fuel) == if r.Done? then Eval(t.last, ex, r.st, fuel) else r
  {
  }

  /** A body that throws, and a handler and finally block that end normally. */
  lemma TryLands(t: Stmt, ex: nat, st: Store, fuel: nat)
    requires t.Try? && fuel > 0 && Eval(t.body, NONE, st, fuel).Threw?
    ensures var r := Eval(t.body, NONE, st, fuel);
            var r1 := Eval(Handler(t.clauses, Returned(r.ex)), Returned(r.ex), r.st, fuel - 1);
            r1.Done? ==>
              var r2 := Eval(t.last, Returned(r.ex), r1.st, fuel - 1);
              r2.Done? ==> Eval(t, ex, st, fuel) == r2
  {
    var r := Eval(t.body, NONE, st, fuel);
    ArmRuns(t, NONE, st, fuel);
    ArmRuns(t, Returned(r.ex), r.st, fuel - 1);
    assert EvalTry(t, NONE, st, fuel) == EvalTry(t, Returned(r.ex), r.st, fuel - 1);
  }

  /** Where no handler throws, the macros are structured exceptions. */
  lemma {:induction false} CalmIsTextbook(s: Stmt, ex: nat, st: Store, fuel: nat)
    requires Calm(s, ex, st) && fuel >= Size(s)
    ensures Eval(s, ex, st, fuel) == Textbook(s, ex, st)
    decreases Size(s)
  {
    match s {
      case Seq(a, b) =>
        CalmIsTextbook(a, ex, st, fuel);
        if Textbook(a, ex, st).Done? {
          CalmIsTextbook(b, ex, Textbook(a, ex, st).st, fuel);
        }
      case Try(body, clauses, last) =>
        CalmIsTextbook(body, NONE, st, fuel);
        ArmRuns(s, NONE, st, fuel);
        var r := Textbook(body, NONE, st);
        if r.Done? {
          CalmIsTextbook(last, NONE, r.st, fuel);
        } else {
          var h := Handler(clauses, Returned(r.ex));
          ChosenIsHandler(clauses, Returned(r.ex));
          TryLands(s, ex, st, fuel);
          CalmIsTextbook(h, Returned(r.ex), r.st, fuel - 1);
          CalmIsTextbook(last, Returned(r.ex), Textbook(h, Returned(r.ex), r.st).st, fuel - 1);
        }
      case _ =>
    }
  }

  /** A try whose parts behave agrees with the textbook exactly if its handler and finally block
      end normally: otherwise the textbook throws, and the macros never let a try throw. */
  lemma TryIsTextbookIff(t: Stmt, ex: nat, st: Store, fuel: nat)
    requires t.Try? && CalmInside(t, st) && fuel >= Size(t)
    ensures Eval(t, ex, st, fuel) == Textbook(t, ex, st) <==> ArmEnds(t, st)
  {
    if ArmEnds(t, st) {
      CalmIsTextbook(t, ex, st, fuel);
    } else {
      var _ := SimulatesTry(t, NONE, st, fuel, [], []);
    }
  }

  /** A handler that throws what it handles is run for ever. */
  lemma {:induction false} ThrowingHandlerLoops(ex: nat, st: Store, fuel: nat)
    requires ex != NONE
    ensures var t := Try(Throw(ex), Catch([ex], Throw(ex), NoClause), Skip);
            Eval(t, NONE, st, fuel) == OutOfFuel && Textbook(t, NONE, st) == Threw(ex, st)
    decreases fuel
  {
    var t := Try(Throw(ex), Catch([ex], Throw(ex), NoClause), Skip);
    assert Eval(Arm(t, NONE), NONE, st, fuel) == Threw(ex, st);
    ChosenIsHandler(t.clauses, ex);
    if fuel > 0 {
      ThrowingHandlerGoesOn(ex, st, fuel - 1);
    }
  }

  lemma {:induction false} ThrowingHandlerGoesOn(ex: nat, st: Store, fuel: nat)
    requires ex != NONE
    ensures EvalTry(Try(Throw(ex), Catch([ex], Throw(ex), NoClause), Skip), ex, st, fuel) == OutOfFuel
    decreases fuel
  {
    var t := Try(Throw(ex), Catch([ex], Throw(ex), NoClause), Skip);
    assert Eval(Arm(t, ex), ex, st, fuel) == Threw(ex, st);
    if fuel > 0 {
      ThrowingHandlerGoesOn(ex, st, fuel - 1);
    }
  }

  // ---- Cleaning up ----

  /** The shape of get_address and of SAFE_DWARF: do `work`, close what it opened, and then throw
      the first exception on. `x` is the local variable my_ex. */
  function WithCleanup(work: Stmt, close: Stmt, x: string): Stmt {
    Seq(Clear(x),
        Seq(Try(work, NoClause, Save(x)),
            Seq(Try(close, Catch([IO_EXCEPTION], SaveFirst(x), NoClause), Skip),
                Rethrow(x))))
  }

  lemma WorkSaved(work: Stmt, x: string, ex: nat, st: Store, fuel: nat)
    requires fuel > 0 && !Eval(work, NONE, st, fuel).OutOfFuel?
    ensures var r := Eval(work, NONE, st, fuel);
            var mine := if r.Threw? then Returned(r.ex) else NONE;
            Eval(Try(work, NoClause, Save(x)), ex, st, fuel) == Done(Set(r.st, x, mine))
  {
    hide Set;
    var t := Try(work, NoClause, Save(x));
    ArmRuns(t, NONE, st, fuel);
    if Eval(work, NONE, st, fuel).Threw? { TryLands(t, ex, st, fuel); }
  }

  lemma CloseSaved(close: Stmt, x: string, ex: nat, st: Store, fuel: nat) returns (st1: Store)
    requires fuel > 0 && !Eval(close, NONE, st, fuel).OutOfFuel?
    ensures var r := Eval(close, NONE, st, fuel);
            var first := r.Threw? && Returned(r.ex) == IO_EXCEPTION && Get(r.st, x) == NONE;
            && st1 == (if first then Set(r.st, x, IO_EXCEPTION) else r.st)
            && Eval(Try(close, Catch([IO_EXCEPTION], SaveFirst(x), NoClause), Skip), ex, st, fuel) == Done(st1)
  {
    hide Get, Set;
    var t := Try(close, Catch([IO_EXCEPTION], SaveFirst(x), NoClause), Skip);
    var r := Eval(close, NONE, st, fuel);
    ArmRuns(t, NONE, st, fuel);
    if r.Threw? { TryLands(t, ex, st, fuel); }
    var first := r.Threw? && Returned(r.ex) == IO_EXCEPTION && Get(r.st, x) == NONE;
    st1 := if first then Set(r.st, x, IO_EXCEPTION) else r.st;
  }

  /** An exception of the work is thrown on, as 1 if it was 0; the close is run in any case; of its
      exceptions an IOException is thrown on if the work threw none, and all others are lost. */
  lemma CleanupRethrows(work: Stmt, close: Stmt, x: string, ex: nat, st: Store, fuel: nat)
    requires fuel > 0
    requires !Eval(work, NONE, Set(st, x, NONE), fuel).OutOfFuel?
    ensures var r := Eval(work, NONE, Set(st, x, NONE), fuel);
            var mine := if r.Threw? then Returned(r.ex) else NONE;
            var r2 := Eval(close, NONE, Set(r.st, x, mine), fuel);
            !r2.OutOfFuel? && Get(r2.st, x) == mine ==>
              var closing := mine == NONE && r2.Threw? && Returned(r2.ex) == IO_EXCEPTION;
              var e := if closing then IO_EXCEPTION else mine;
              var all := Eval(WithCleanup(work, close, x), ex, st, fuel);
              && !all.OutOfFuel? && all.st.out == r2.st.out
              && (all.Threw? <==> e != NONE) && (all.Threw? ==> all.ex == e)
  {
    hide Get, Set, Returned;
    var st0 := Set(st, x, NONE);
    var r := Eval(work, NONE, st0, fuel);
    var mine := if r.Threw? then Returned(r.ex) else NONE;
    var t1, t2 := Try(work, NoClause, Save(x)), Try(close, Catch([IO_EXCEPTION], SaveFirst(x), NoClause), Skip);
    WorkSaved(work, x, ex, st0, fuel);
    var st1 := Set(r.st, x, mine);
    var r2 := Eval(close, NONE, st1, fuel);
    if !r2.OutOfFuel? {
      var st2 := CloseSaved(close, x, ex, st1, fuel);
      GetSet(r2.st, x, IO_EXCEPTION, x);
      assert Eval(Seq(t2, Rethrow(x)), ex, st1, fuel) == Eval(Rethrow(x), ex, st2, fuel);
      assert Eval(Seq(t1, Seq(t2, Rethrow(x))), ex, st0, fuel) == Eval(Seq(t2, Rethrow(x)), ex, st1, fuel);
    }
  }
}
