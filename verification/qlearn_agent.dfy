/** The tabular Q-learning core of QLearnAgent.java: the value table with its
    optimistic default, the greedy search, the exploration candidates and the
    one-entry temporal-difference update. States are a type parameter `S`
    compared by value, as the agent's state-action keys are. */
module QLearnAgent {
  import opened Actions
  import opened Sequences

  /** Value of a state-action pair that is not in the table. */
  const InitialValue: real := 20.0
  /** Exploration rate the agent starts with. */
  const DefaultEpsilon: real := 0.1
  /** Discount applied to the best value of the next state. */
  const Gamma: real := 0.9
  /** Learning rate. */
  const Alpha: real := 0.3

  /** A state-action key: the state and the buttons the action presses. */
  datatype Key<S> = Key(state: S, action: Buttons)

  /** The learned values. */
  type QTable<S(==)> = map<Key<S>, real>

  function KeyOf<S>(s: S, a: ActionRef): Key<S>
  {
    Key(s, Pattern(a))
  }

  /** The value of a key: the stored one, or the optimistic default. */
  function Value<S(==)>(q: QTable<S>, k: Key<S>): (v: real)
    ensures k in q ==> v == q[k]
    ensures k !in q ==> v == InitialValue
  {
    if k in q then q[k] else InitialValue
  }

  /** The value of taking action `a` in state `s`. */
  function ActionValue<S(==)>(q: QTable<S>, s: S, a: ActionRef): real
  {
    Value(q, KeyOf(s, a))
  }

  /** `acts[j]` has the largest value in `acts` and is the first to reach it. */
  ghost predicate FirstBestAt<S>(q: QTable<S>, s: S, acts: seq<ActionRef>, j: int)
  {
    && 0 <= j < |acts|
    && (forall i :: 0 <= i < |acts| ==> ActionValue(q, s, acts[i]) <= ActionValue(q, s, acts[j]))
    && (forall i :: 0 <= i < j ==> ActionValue(q, s, acts[i]) < ActionValue(q, s, acts[j]))
  }

  /** The running best of the agent's two search loops over an action list:
      it starts at (the fresh array, 0) and is replaced only by a strictly
      greater value. Returns the position of the best action in `acts`, -1
      while the fresh array is still best, and the best value. */
  function Scan<S(==)>(q: QTable<S>, s: S, acts: seq<ActionRef>): (r: (int, real))
    ensures -1 <= r.0 < |acts|
    ensures r.1 >= 0.0
    ensures forall i :: 0 <= i < |acts| ==> ActionValue(q, s, acts[i]) <= r.1
    ensures r.0 == -1 <==> r.1 == 0.0
    ensures r.0 >= 0 ==> r.1 == ActionValue(q, s, acts[r.0]) && FirstBestAt(q, s, acts, r.0)
    decreases |acts|
  {
    if |acts| == 0 then (-1, 0.0)
    else
      var n := |acts| - 1;
      var prev := Scan(q, s, acts[..n]);
      var v := ActionValue(q, s, acts[n]);
      assert forall i :: 0 <= i < n ==> acts[..n][i] == acts[i];
      if v > prev.1 then (n, v) else prev
  }

  /** The greedy action in state `s` (eGreedyAction's search loop). */
  function Greedy<S(==)>(q: QTable<S>, s: S): ActionRef
  {
    var r := Scan(q, s, ValidActions());
    if r.0 >= 0 then ValidActions()[r.0] else Fresh
  }

  /** The best value of state `s` (updateQValue's search loop). */
  function BestQ<S(==)>(q: QTable<S>, s: S): real
  {
    Scan(q, s, ValidActions()).1
  }

  /** When some action is worth more than 0 the greedy action is the first
      one in list order that reaches the maximum; otherwise it is the fresh
      all-false array, not the STAY element of the list. */
  lemma GreedyIsFirstBest<S>(q: QTable<S>, s: S)
    ensures (forall i :: 0 <= i < 12 ==> ActionValue(q, s, AllActions()[i]) <= 0.0) ==> Greedy(q, s) == Fresh
    ensures (exists i :: 0 <= i < 12 && ActionValue(q, s, AllActions()[i]) > 0.0) ==>
              exists j :: FirstBestAt(q, s, AllActions(), j) && Greedy(q, s) == AllActions()[j]
  {
    var r := Scan(q, s, ValidActions());
    if r.0 >= 0 {
      assert FirstBestAt(q, s, AllActions(), r.0);
    }
  }

  /** The best value is the maximum of 0 and every action's value; it is
      never negative. */
  lemma BestQIsMax<S>(q: QTable<S>, s: S)
    ensures BestQ(q, s) >= 0.0
    ensures forall i :: 0 <= i < 12 ==> ActionValue(q, s, AllActions()[i]) <= BestQ(q, s)
    ensures BestQ(q, s) == 0.0 || exists i :: 0 <= i < 12 && ActionValue(q, s, AllActions()[i]) == BestQ(q, s)
  {
  }

  /** The temporal-difference target of a reward followed by a state whose best value is `bestQ`. */
  function Target(reward: real, bestQ: real): real
  {
    reward + Gamma * bestQ
  }

  /** The Q-learning rule: the old value moved towards the target by the learning rate. */
  function Learn(oldQ: real, reward: real, bestQ: real): (v: real)
    ensures v - Target(reward, bestQ) == (1.0 - Alpha) * (oldQ - Target(reward, bestQ))
    ensures oldQ <= Target(reward, bestQ) ==> oldQ <= v <= Target(reward, bestQ)
    ensures Target(reward, bestQ) <= oldQ ==> Target(reward, bestQ) <= v <= oldQ
  {
    oldQ + Alpha * (reward + Gamma * bestQ - oldQ)
  }

  /** updateQValue: the value of (oldState, returnAction) learns from the
      reward and the best value of `state`; nothing else is written. */
  function UpdateQValue<S(==)>(q: QTable<S>, oldState: S, returnAction: ActionRef, state: S, reward: real): QTable<S>
  {
    var bestQValue := BestQ(q, state);
    var oldQ := Value(q, KeyOf(oldState, returnAction));
    var updatedValue := oldQ + Alpha * (reward + Gamma * bestQValue - oldQ);
    q[KeyOf(oldState, returnAction) := updatedValue]
  }

  /** What updateQValue writes: the pair (oldState, returnAction) is added if
      missing and takes the rule's value for its old value (or the default)
      and the best value of `state`; every other entry is unchanged. */
  lemma UpdateQValueWrites<S>(q: QTable<S>, oldState: S, returnAction: ActionRef, state: S, reward: real)
    ensures UpdateQValue(q, oldState, returnAction, state, reward).Keys == q.Keys + {KeyOf(oldState, returnAction)}
    ensures forall k :: k in q && k != KeyOf(oldState, returnAction) ==> UpdateQValue(q, oldState, returnAction, state, reward)[k] == q[k]
    ensures UpdateQValue(q, oldState, returnAction, state, reward)[KeyOf(oldState, returnAction)]
         == Learn(ActionValue(q, oldState, returnAction), reward, BestQ(q, state))
  {
  }

  /** The list without the first element that is the same reference as `x`
      (Java's List.remove(Object) on arrays, which compare by identity). */
  function RemoveFirst(xs: seq<ActionRef>, x: ActionRef): (r: seq<ActionRef>)
    ensures x in xs ==> |r| == |xs| - 1
    ensures x in xs ==> r == xs[..FirstIndex(xs, x)] + xs[FirstIndex(xs, x) + 1..]
    ensures x !in xs ==> r == xs
  {
    if x in xs then
      var i := FirstIndex(xs, x);
      xs[..i] + xs[i + 1..]
    else
      xs
  }

  /** The exploration candidates: the valid actions without the greedy one. */
  function Candidates<S(==)>(q: QTable<S>, s: S): seq<ActionRef>
  {
    RemoveFirst(ValidActions(), Greedy(q, s))
  }

  /** eGreedyAction with the random draws as parameters: `coin` is the
      generator's double in [0, 1), `pick` its integer below the number of
      candidates. Below `epsilon` an exploration candidate is returned,
      otherwise the greedy action. */
  function EGreedyAction<S(==)>(q: QTable<S>, s: S, epsilon: real, coin: real, pick: nat): (a: ActionRef)
    requires coin < epsilon ==> pick < |Candidates(q, s)|
    ensures coin >= epsilon ==> a == Greedy(q, s)
    ensures coin < epsilon ==> a in AllActions() && a != Greedy(q, s)
  {
    var bestAction := Greedy(q, s);
    if coin < epsilon then
      CandidatesExcludeGreedy(q, s);
      Candidates(q, s)[pick]
    else
      bestAction
  }

  /** When some action has a positive value the greedy action is one of the
      twelve and exploration chooses among the other eleven; otherwise the
      greedy action is the fresh array, which is in no list, and exploration
      chooses among all twelve. */
  lemma CandidatesExcludeGreedy<S>(q: QTable<S>, s: S)
    ensures Greedy(q, s) != Fresh ==> |Candidates(q, s)| == 11
    ensures Greedy(q, s) == Fresh ==> Candidates(q, s) == AllActions()
    ensures Greedy(q, s) !in Candidates(q, s)
    ensures forall a :: a in Candidates(q, s) ==> a in AllActions()
    ensures forall a :: a in Candidates(q, s) <==> a in AllActions() && a != Greedy(q, s)
  {
    var acts := AllActions();
    var g := Greedy(q, s);
    ActionPatterns();
    GreedyIsFirstBest(q, s);
    RemoveFirstOfDistinct(acts, g);
  }

  /** Removing a reference from a list without repeats removes it completely. */
  lemma RemoveFirstOfDistinct(xs: seq<ActionRef>, x: ActionRef)
    requires forall i, j :: 0 <= i < j < |xs| ==> xs[i] != xs[j]
    ensures x in xs ==> |RemoveFirst(xs, x)| == |xs| - 1
    ensures x !in RemoveFirst(xs, x)
    ensures forall a :: a in RemoveFirst(xs, x) ==> a in xs
    ensures forall a :: a in xs && a != x ==> a in RemoveFirst(xs, x)
  {
    var r := RemoveFirst(xs, x);
    if x in xs {
      var i := FirstIndex(xs, x);
      assert r == xs[..i] + xs[i + 1..];
      forall k | 0 <= k < |r|
        ensures r[k] != x && r[k] in xs
      {
        if k < i {
          assert r[k] == xs[k];
        } else {
          assert r[k] == xs[k + 1];
        }
      }
      forall a | a in xs && a != x
        ensures a in r
      {
        var k :| 0 <= k < |xs| && xs[k] == a;
        if k < i {
          assert r[k] == a;
        } else {
          assert k > i && r[k - 1] == a;
        }
      }
    }
  }

  /** The greedy action is returned with epsilon 0, and never with epsilon 1,
      for every draw of the coin in [0, 1). */
  lemma EpsilonBounds<S>(q: QTable<S>, s: S, coin: real, pick: nat)
    requires 0.0 <= coin < 1.0
    requires pick < |Candidates(q, s)|
    ensures EGreedyAction(q, s, 0.0, coin, pick) == Greedy(q, s)
    ensures EGreedyAction(q, s, 1.0, coin, pick) != Greedy(q, s)
  {
    CandidatesExcludeGreedy(q, s);
  }

  /** Exploration is by reference, not by buttons: when nothing beats 0 the
      greedy action is the fresh array, and exploring may return the STAY
      array, which presses the same buttons and so updates the same key. */
  lemma ExplorationMayRepeatGreedyButtons<S>(q: QTable<S>, s: S)
    requires forall i :: 0 <= i < 12 ==> ActionValue(q, s, AllActions()[i]) <= 0.0
    ensures Greedy(q, s) == Fresh
    ensures EGreedyAction(q, s, DefaultEpsilon, 0.0, 0) == Field(Stay)
    ensures KeyOf(s, EGreedyAction(q, s, DefaultEpsilon, 0.0, 0)) == KeyOf(s, Greedy(q, s))
  {
    CandidatesExcludeGreedy(q, s);
  }

  /** The greedy search never sees the defaults it skips: in a state that has
      never been updated every action is worth InitialValue, the first action
      (STAY) is greedy and the best value is the default. */
  lemma UnseenStateGreedyIsStay<S>(q: QTable<S>, s: S)
    requires forall a :: Key(s, a) !in q
    ensures Greedy(q, s) == Field(Stay)
    ensures BestQ(q, s) == InitialValue
  {
    var acts := AllActions();
    forall i | 0 <= i < 12
      ensures ActionValue(q, s, acts[i]) == InitialValue
    {
      assert KeyOf(s, acts[i]) !in q;
    }
    assert ActionValue(q, s, acts[0]) > 0.0;
    var j :| FirstBestAt(q, s, acts, j) && Greedy(q, s) == acts[j];
    assert FirstBestAt(q, s, acts, j);
    assert 0 <= j < |acts|;
    assert |acts| == 12;
    if j > 0 {
      assert ActionValue(q, s, acts[0]) < ActionValue(q, s, acts[j]);
    }
  }

  /** A distance `d` after `n` updates: scaled by 1 - Alpha = 0.7 per update. */
  function Contracted(d: real, n: nat): real
  {
    if n == 0 then d else (1.0 - Alpha) * Contracted(d, n - 1)
  }

  function Abs(x: real): real
  {
    if x < 0.0 then -x else x
  }

  /** Each further update strictly reduces a nonzero distance to the target. */
  lemma {:induction false} ContractedShrinks(d: real, n: nat)
    requires d != 0.0
    ensures 0.0 < Abs(Contracted(d, n + 1)) < Abs(Contracted(d, n))
    decreases n
  {
    if n > 0 {
      ContractedShrinks(d, n - 1);
    }
  }

  /** The rule applied `n` times with a fixed reward and best next value. */
  function LearnN(v: real, reward: real, bestQ: real, n: nat): real
  {
    if n == 0 then v else Learn(LearnN(v, reward, bestQ, n - 1), reward, bestQ)
  }

  /** With a fixed target, the distance to it shrinks by 0.7 per update. */
  lemma {:induction false} LearnNConverges(v: real, reward: real, bestQ: real, n: nat)
    ensures LearnN(v, reward, bestQ, n) - Target(reward, bestQ) == Contracted(v - Target(reward, bestQ), n)
    decreases n
  {
    if n > 0 {
      LearnNConverges(v, reward, bestQ, n - 1);
    }
  }

  /** The same transition applied `n` times to the table. */
  function UpdateN<S(==)>(q: QTable<S>, oldState: S, a: ActionRef, state: S, reward: real, n: nat): QTable<S>
  {
    if n == 0 then q else UpdateQValue(UpdateN(q, oldState, a, state, reward, n - 1), oldState, a, state, reward)
  }

  /** The search over a state reads only that state's keys. */
  lemma {:induction false} ScanFrame<S>(q1: QTable<S>, q2: QTable<S>, s: S, acts: seq<ActionRef>)
    requires forall b :: Value(q1, Key(s, b)) == Value(q2, Key(s, b))
    ensures Scan(q1, s, acts) == Scan(q2, s, acts)
    decreases |acts|
  {
    if |acts| > 0 {
      ScanFrame(q1, q2, s, acts[..|acts| - 1]);
      assert ActionValue(q1, s, acts[|acts| - 1]) == ActionValue(q2, s, acts[|acts| - 1]);
    }
  }

  /** One update out of one state leaves every key of another state as it was. */
  lemma UpdateFrame<S>(p: QTable<S>, oldState: S, a: ActionRef, state: S, reward: real)
    requires oldState != state
    ensures forall b :: Value(UpdateQValue(p, oldState, a, state, reward), Key(state, b)) == Value(p, Key(state, b))
  {
    UpdateQValueWrites(p, oldState, a, state, reward);
    forall b
      ensures Value(UpdateQValue(p, oldState, a, state, reward), Key(state, b)) == Value(p, Key(state, b))
    {
      assert Key(state, b) != KeyOf(oldState, a);
    }
  }

  /** Repeating a transition out of one state leaves every key of another state as it was. */
  lemma {:induction false} RepeatedUpdateFrame<S>(q: QTable<S>, oldState: S, a: ActionRef, state: S, reward: real, n: nat)
    requires oldState != state
    ensures forall b :: Value(UpdateN(q, oldState, a, state, reward, n), Key(state, b)) == Value(q, Key(state, b))
    decreases n
  {
    if n > 0 {
      RepeatedUpdateFrame(q, oldState, a, state, reward, n - 1);
      UpdateFrame(UpdateN(q, oldState, a, state, reward, n - 1), oldState, a, state, reward);
    }
  }

  /** Repeating a transition out of one state keeps the best value of another. */
  lemma RepeatedUpdateKeepsBestQ<S>(q: QTable<S>, oldState: S, a: ActionRef, state: S, reward: real, n: nat)
    requires oldState != state
    ensures BestQ(UpdateN(q, oldState, a, state, reward, n), state) == BestQ(q, state)
  {
    RepeatedUpdateFrame(q, oldState, a, state, reward, n);
    ScanFrame(UpdateN(q, oldState, a, state, reward, n), q, state, ValidActions());
  }

  /** One update writes the learning rule's value into the updated pair. */
  lemma UpdatedValue<S>(p: QTable<S>, oldState: S, a: ActionRef, state: S, reward: real)
    ensures ActionValue(UpdateQValue(p, oldState, a, state, reward), oldState, a)
         == Learn(ActionValue(p, oldState, a), reward, BestQ(p, state))
  {
    UpdateQValueWrites(p, oldState, a, state, reward);
  }

  /** The n-th repetition applies the learning rule once more, towards the
      unchanged best value of the next state. */
  lemma RepeatedUpdateStep<S>(q: QTable<S>, oldState: S, a: ActionRef, state: S, reward: real, n: nat)
    requires oldState != state && n >= 1
    ensures ActionValue(UpdateN(q, oldState, a, state, reward, n), oldState, a)
         == Learn(ActionValue(UpdateN(q, oldState, a, state, reward, n - 1), oldState, a), reward, BestQ(q, state))
  {
    RepeatedUpdateKeepsBestQ(q, oldState, a, state, reward, n - 1);
    UpdatedValue(UpdateN(q, oldState, a, state, reward, n - 1), oldState, a, state, reward);
  }

  /** With the next state's best value fixed, repeating a transition applies
      the learning rule `n` times to the updated pair. */
  lemma {:induction false} RepeatedUpdateValue<S>(q: QTable<S>, oldState: S, a: ActionRef, state: S, reward: real, n: nat)
    requires oldState != state
    ensures ActionValue(UpdateN(q, oldState, a, state, reward, n), oldState, a)
         == LearnN(ActionValue(q, oldState, a), reward, BestQ(q, state), n)
    decreases n
  {
    if n > 0 {
      RepeatedUpdateValue(q, oldState, a, state, reward, n - 1);
      RepeatedUpdateStep(q, oldState, a, state, reward, n);
    }
  }

  /** Repeating a transition out of a different state keeps the best value of
      the next state, so the value learns towards a fixed target and its
      distance to that target shrinks by the factor 0.7 per update. */
  lemma RepeatedUpdateConverges<S>(q: QTable<S>, oldState: S, a: ActionRef, state: S, reward: real, n: nat)
    requires oldState != state
    ensures BestQ(UpdateN(q, oldState, a, state, reward, n), state) == BestQ(q, state)
    ensures ActionValue(UpdateN(q, oldState, a, state, reward, n), oldState, a) - Target(reward, BestQ(q, state))
         == Contracted(ActionValue(q, oldState, a) - Target(reward, BestQ(q, state)), n)
  {
    RepeatedUpdateKeepsBestQ(q, oldState, a, state, reward, n);
    RepeatedUpdateValue(q, oldState, a, state, reward, n);
    LearnNConverges(ActionValue(q, oldState, a), reward, BestQ(q, state), n);
  }
}
