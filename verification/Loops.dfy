/** Loops that take answers one by one for as long as they go on. */
module Loops {
  ghost function Loop<S, A>(step: (S, A) -> S, goes: S -> bool, s: S, answers: seq<A>): S
    decreases |answers|
  {
    if answers == [] || !goes(s) then s else Loop(step, goes, step(s, answers[0]), answers[1..])
  }

  /** How many answers the loop takes. */
  ghost function Used<S, A>(step: (S, A) -> S, goes: S -> bool, s: S, answers: seq<A>): (used: nat)
    ensures used <= |answers|
    decreases |answers|
  {
    if answers == [] || !goes(s) then 0 else 1 + Used(step, goes, step(s, answers[0]), answers[1..])
  }

  /** The answers taken are a first part of those there are. */
  ghost predicate Takes<S, A>(step: (S, A) -> S, goes: S -> bool, s: S, answers: seq<A>, now: seq<A>) {
    now == answers[..Used(step, goes, s, answers)]
  }

  lemma TakesRest<S, A>(step: (S, A) -> S, goes: S -> bool, s: S, answers: seq<A>, now: seq<A>)
    requires Takes(step, goes, s, answers, now) && now != []
    ensures goes(s) && answers != [] && now[0] == answers[0]
    ensures Takes(step, goes, step(s, now[0]), answers[1..], now[1..])
    ensures Loop(step, goes, s, answers) == Loop(step, goes, step(s, now[0]), answers[1..])
  {
  }

  /** Every answer but the last keeps the loop going; the last one is taken in a state `e` and
      ends it; and the loop stops before the answers do only when it does not go on. */
  lemma {:induction false} LoopEnds<S(!new), A(!new)>(step: (S, A) -> S, goes: S -> bool, keeps: A -> bool, s: S,
                                                      answers: seq<A>, now: seq<A>)
    returns (e: S)
    requires Takes(step, goes, s, answers, now)
    requires forall t, a :: goes(t) && goes(step(t, a)) ==> keeps(a)
    ensures forall i :: 0 <= i < |now| - 1 ==> keeps(now[i])
    ensures now == [] ==> Loop(step, goes, s, answers) == s
    ensures now != [] ==> goes(e) && Loop(step, goes, s, answers) == step(e, now[|now| - 1])
    ensures |now| < |answers| ==> !goes(Loop(step, goes, s, answers))
    decreases |answers|
  {
    e := s;
    if now != [] {
      TakesRest(step, goes, s, answers, now);
      var rest := now[1..];
      var e' := LoopEnds(step, goes, keeps, step(s, now[0]), answers[1..], rest);
      if rest != [] {
        e := e';
        assert goes(step(s, now[0])) by { TakesRest(step, goes, step(s, now[0]), answers[1..], rest); }
        assert forall i :: 1 <= i < |now| ==> now[i] == rest[i - 1];
      }
    }
  }

  /** A relation between the state and the answers still to be taken, kept by every step, holds
      in the end with no answer left. */
  lemma {:induction false} LoopKeeps<S(!new), A(!new)>(step: (S, A) -> S, goes: S -> bool,
                                                       inv: (S, seq<A>) -> bool, s: S, answers: seq<A>, now: seq<A>)
    requires Takes(step, goes, s, answers, now) && inv(s, now)
    requires forall t, rest: seq<A> :: rest != [] && goes(t) && inv(t, rest) ==>
               var t' := step(t, rest[0]); (rest[1..] != [] ==> goes(t')) ==> inv(t', rest[1..])
    ensures inv(Loop(step, goes, s, answers), [])
    decreases |answers|
  {
    if now != [] {
      TakesRest(step, goes, s, answers, now);
      var s', rest := step(s, now[0]), now[1..];
      if rest != [] {
        TakesRest(step, goes, s', answers[1..], rest);
      }
      LoopKeeps(step, goes, inv, s', answers[1..], rest);
    }
  }
}
