/** The states a dimension can be in, and how several of them are combined into one. */
module DimensionStates {
  import opened Prelude

  datatype State = Pass | Fail | Unknown | Unsupported | Unreadable | NotRecorded

  function Rank(s: State): nat {
    match s
    case Pass => 0
    case Fail => 1
    case Unknown => 2
    case Unsupported => 3
    case Unreadable => 4
    case NotRecorded => 5
  }

  function Max(a: State, b: State): State {
    if Rank(a) > Rank(b) then a else b
  }

  function Combine(a: State, b: State): State {
    if a == Fail || b == Fail then Fail else Max(a, b)
  }

  /** Combining is a join: order, grouping and repetition do not matter, pass is neutral, fail absorbs. */
  lemma CombineIsAJoin(a: State, b: State, c: State)
    ensures Combine(a, Combine(b, c)) == Combine(Combine(a, b), c)
    ensures Combine(a, b) == Combine(b, a) && Combine(a, a) == a
    ensures Combine(Pass, a) == a == Combine(a, Pass) && Combine(Fail, a) == Fail == Combine(a, Fail)
  {
  }

  function CombineAll(states: seq<State>): State {
    if |states| == 0 then Pass else Combine(CombineAll(states[..|states| - 1]), Last(states))
  }

  /** A combined state is fail if any is, and otherwise the weakest of them. */
  predicate IsJoin(r: State, states: seq<State>) {
    if Fail in states then r == Fail
    else (r == Pass || r in states) && forall i :: 0 <= i < |states| ==> Rank(states[i]) <= Rank(r)
  }

  lemma {:induction false} CombineAllIsJoin(states: seq<State>)
    ensures IsJoin(CombineAll(states), states)
  {
    if |states| > 0 {
      var front := states[..|states| - 1];
      CombineAllIsJoin(front);
      assert states == front + [Last(states)];
    }
  }

  lemma PassMeansAllPass(states: seq<State>)
    ensures CombineAll(states) == Pass <==> forall i :: 0 <= i < |states| ==> states[i] == Pass
  {
    CombineAllIsJoin(states);
  }

  lemma FailMeansSomeFail(states: seq<State>)
    ensures CombineAll(states) == Fail <==> Fail in states
  {
    CombineAllIsJoin(states);
  }

  /** Lists with the same states in them, in whatever order and number, combine to the same one. */
  lemma SameStatesCombineAlike(a: seq<State>, b: seq<State>)
    requires forall s :: s in a <==> s in b
    ensures CombineAll(a) == CombineAll(b)
  {
    CombineAllIsJoin(a);
    CombineAllIsJoin(b);
    var x, y := CombineAll(a), CombineAll(b);
    if Fail !in a {
    }
  }

}
