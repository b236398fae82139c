/** The static list of environments, and one step of the exception machine on it. */
module EnvStack {
  import opened Exceptions

  class Node {
    const env: Env
    const next: Node?
    ghost const contents: seq<Env>

    ghost predicate Valid()
      decreases |contents|
    {
      && contents != []
      && contents[0] == env
      && contents[1..] == (if next == null then [] else next.contents)
      && (next != null ==> next.Valid())
    }

    constructor (env: Env, next: Node?)
      requires next != null ==> next.Valid()
      ensures this.env == env && this.next == next && Valid()
      ensures contents == [env] + if next == null then [] else next.contents
    {
      this.env, this.next := env, next;
      this.contents := [env] + if next == null then [] else next.contents;
    }
  }

  class EnvList {
    var list: Node?

    ghost predicate Valid()
      reads this
    {
      list != null ==> list.Valid()
    }

    ghost function Contents(): seq<Env>
      reads this
    {
      if list == null then [] else list.contents
    }

    constructor ()
      ensures Valid() && Contents() == []
    {
      list := null;
    }

    method NewEnv(env: Env)
      requires Valid()
      modifies this
      ensures Valid() && Contents() == [env] + old(Contents())
    {
      list := new Node(env, list);
    }

    /** The caller must have called `NewEnv` before. */
    method DeleteEnv()
      requires Valid() && Contents() != []
      modifies this
      ensures Valid() && Contents() == old(Contents())[1..]
    {
      list := list.next;
    }

    method ExDepth() returns (depth: nat)
      requires Valid()
      ensures depth == |Contents()|
    {
      depth := 0;
      var l := list;
      while l != null
        invariant l != null ==> l.Valid()
        invariant depth + (if l == null then 0 else |l.contents|) == |Contents()|
        decreases if l == null then 0 else |l.contents|
      {
        depth := depth + 1;
        l := l.next;
      }
    }

    /** Where longjmp goes, or the end of the debugger if no try is active. */
    method ThrowException(ex: nat, ghost st: Store) returns (uncaught: bool, control: seq<Frame>)
      requires Valid() && forall i :: 0 <= i < |Contents()| ==> Contents()[i].t.Try?
      ensures Raise(ex, Contents(), st) == if uncaught then Uncaught(ex, st) else Running(control, Contents(), st)
    {
      if list == null { return true, []; }
      assert list.env == Contents()[0];
      return false, Enter(list.env.t, Returned(ex), list.env.rest);
    }

    /** One step of the machine, with this list for its environments. */
    method Advance(control: seq<Frame>, st: Store)
      returns (uncaught: bool, control': seq<Frame>, st': Store, thrown: nat)
      requires Valid() && control != [] && Balanced(control, Contents())
      modifies this
      ensures Valid()
      ensures Step(Running(control, old(Contents()), st))
           == if uncaught then Uncaught(thrown, st') else Running(control', Contents(), st')
    {
      AllTries(control, Contents());
      var rest := control[1..];
      uncaught, control', st', thrown := false, rest, st, NONE;
      match control[0] {
        case Leave =>
          StepBalanced(Running(control, Contents(), st));
          DeleteEnv();
        case Do(s, ex) =>
          match s {
            case Skip =>
            case Print(text) => st' := st.(out := st.out + [text]);
            case Throw(e) =>
              thrown := e;
              uncaught, control' := ThrowException(e, st);
            case Seq(a, b) => control' := [Do(a, ex), Do(b, ex)] + rest;
            case Try(_, _, _) =>
              NewEnv(Env(s, rest));
              control' := Enter(s, NONE, rest);
            case Clear(x) => st' := Set(st, x, NONE);
            case Save(x) => st' := Set(st, x, ex);
            case SaveFirst(x) => if Get(st, x) == NONE { st' := Set(st, x, ex); }
            case Rethrow(x) =>
              if Get(st, x) != NONE {
                thrown := Get(st, x);
                uncaught, control' := ThrowException(thrown, st);
              }
          }
      }
    }
  }

  lemma {:induction false} AllTries(control: seq<Frame>, envs: seq<Env>)
    requires Balanced(control, envs)
    ensures forall i :: 0 <= i < |envs| ==> envs[i].t.Try?
    decreases |envs|
  {
    if envs != [] {
      AllTries(envs[0].rest, envs[1..]);
      forall i | 0 <= i < |envs| ensures envs[i].t.Try? {
        if i > 0 { assert envs[i] == envs[1..][i - 1]; }
      }
    }
  }
}
