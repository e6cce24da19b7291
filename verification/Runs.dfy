/** Transition systems shared by the protocol models: a run is a sequence of actions,
    each of which must be enabled in the state the previous ones lead to. */
module Runs {

  datatype Option<+T> = None | Some(value: T)

  /** The state after taking `acts` in order from `s`; None if one of them is not enabled. */
  function Exec<S, A>(step: (S, A) -> Option<S>, s: S, acts: seq<A>): Option<S> {
    if acts == [] then Some(s)
    else
      match Exec(step, s, acts[..|acts| - 1])
      case None => None
      case Some(m) => step(m, acts[|acts| - 1])
  }

  lemma ExecSnoc<S, A>(step: (S, A) -> Option<S>, s: S, acts: seq<A>, a: A)
    ensures Exec(step, s, acts + [a]) ==
            match Exec(step, s, acts) case None => None case Some(m) => step(m, a)
  {
    assert (acts + [a])[..|acts|] == acts;
  }

  /** One more step. */
  lemma ExecThen<S, A>(step: (S, A) -> Option<S>, s: S, acts: seq<A>, m: S, a: A, t: S)
    requires Exec(step, s, acts) == Some(m) && step(m, a) == Some(t)
    ensures Exec(step, s, acts + [a]) == Some(t)
  {
    ExecSnoc(step, s, acts, a);
  }

  /** Runs compose. */
  lemma {:induction false} ExecConcat<S, A>(step: (S, A) -> Option<S>, s: S, first: seq<A>, rest: seq<A>)
    requires Exec(step, s, first).Some?
    ensures Exec(step, s, first + rest) == Exec(step, Exec(step, s, first).value, rest)
  {
    if rest == [] {
      assert first + rest == first;
    } else {
      var init, last := rest[..|rest| - 1], rest[|rest| - 1];
      ExecConcat(step, s, first, init);
      assert first + rest == (first + init) + [last];
      ExecSnoc(step, s, first + init, last);
    }
  }

  /** What holds at the start and is kept by every step holds after every run. */
  lemma {:induction false} Invariance<S(!new), A(!new)>(step: (S, A) -> Option<S>, inv: S -> bool, s: S, acts: seq<A>)
    requires inv(s)
    requires forall m: S, a: A :: inv(m) && step(m, a).Some? ==> inv(step(m, a).value)
    requires Exec(step, s, acts).Some?
    ensures inv(Exec(step, s, acts).value)
  {
    if acts != [] {
      Invariance(step, inv, s, acts[..|acts| - 1]);
    }
  }

  /** What waits in a queue after n of all messages were taken, and one more sent or taken. */
  lemma QueueMoves<T>(all: seq<T>, n: nat, more: seq<T>)
    requires n <= |all|
    ensures (all + more)[n..] == all[n..] + more
    ensures n < |all| ==> all[n..][1..] == all[n + 1..]
  {}
}
