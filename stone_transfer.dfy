/** The stone-transfer planning domain: a hand moves stones one at a time from a
    pile into two bags of capacity one. A State gives the stone count of each of
    the four objects at one time step; each action is a predicate over a pair of
    consecutive states (its precondition and its effect), and the planning
    problem is the conjunction of those predicates along a sequence of states. */
module StoneTransfer {

  /** Number of intermediate states, and of chained actions, in the encoding. */
  const INTERMEDIATE_STEPS: nat := 10

  /** Stones(o, s) for the four objects o at one time step s. */
  datatype State = State(hand: int, bag1: int, bag2: int, pile: int)

  datatype Bag = Bag1 | Bag2

  datatype Action = Pickup | PutInBag1 | PutInBag2

  function BagStones(s: State, bag: Bag): int {
    match bag
    case Bag1 => s.bag1
    case Bag2 => s.bag2
  }

  /** All stones in the world at one time step. */
  function Total(s: State): int {
    s.hand + s.bag1 + s.bag2 + s.pile
  }

  /** The standing capacity invariant asserted for every state. */
  predicate WithinCapacity(s: State) {
    s.bag1 <= 1 && s.bag2 <= 1
  }

  predicate PickupAction(cur: State, next: State) {
    && cur.hand == 0
    && cur.pile > 0
    && next.pile == cur.pile - 1
    && next.hand == cur.hand + 1
    && next.bag1 == cur.bag1
    && next.bag2 == cur.bag2
  }

  predicate PutInBagAction(cur: State, next: State, bag: Bag) {
    && cur.hand > 0
    && BagStones(cur, bag) < 1
    && next.hand == cur.hand - 1
    && BagStones(next, bag) == BagStones(cur, bag) + 1
    && next.pile == cur.pile
    && (if bag == Bag1 then next.bag2 == cur.bag2 else next.bag1 == cur.bag1)
  }

  /** The action named `a` links `cur` to `next`: a disjunction over the three
      action names, each guarded by an equality with `a`. */
  predicate ApplyAction(a: Action, cur: State, next: State) {
    || (a == Pickup && PickupAction(cur, next))
    || (a == PutInBag1 && PutInBagAction(cur, next, Bag1))
    || (a == PutInBag2 && PutInBagAction(cur, next, Bag2))
  }

  predicate IsInitial(s: State) {
    s.hand == 0 && s.bag1 == 0 && s.bag2 == 0 && s.pile == 2
  }

  predicate IsGoal(s: State) {
    s.hand == 0 && s.bag1 == 1 && s.bag2 == 1 && s.pile == 0
  }

  /** Consecutive states are linked by the action between them. */
  predicate Chain(states: seq<State>, actions: seq<Action>) {
    && |states| == |actions| + 1
    && forall i :: 0 <= i < |actions| ==> ApplyAction(actions[i], states[i], states[i + 1])
  }

  /** The constraint set built by the encoding with `n` intermediate states:
      `states` is the initial state, the n intermediate states and the goal
      state; every state is within capacity, the first is initial, the last is
      a goal, and only the first n + 1 states form a chain, so the goal state
      (index n + 1) is linked to nothing. */
  predicate BagPile(states: seq<State>, actions: seq<Action>, n: nat) {
    && |states| == n + 2
    && |actions| == n
    && (forall i :: 0 <= i < |states| ==> WithinCapacity(states[i]))
    && IsInitial(states[0])
    && IsGoal(states[n + 1])
    && Chain(states[..n + 1], actions)
  }

  /** Corrected encoding: a plan of at most `horizon` actions whose chained
      states start in the initial state, stay within capacity, and END in a
      goal state. */
  predicate Plan(states: seq<State>, actions: seq<Action>, horizon: nat) {
    && Chain(states, actions)
    && |actions| <= horizon
    && (forall i :: 0 <= i < |states| ==> WithinCapacity(states[i]))
    && IsInitial(states[0])
    && IsGoal(states[|actions|])
  }

  /** Number of occurrences of action `a`. */
  function Count(actions: seq<Action>, a: Action): nat {
    if actions == [] then 0
    else Count(actions[..|actions| - 1], a) + (if actions[|actions| - 1] == a then 1 else 0)
  }

  function Puts(actions: seq<Action>): nat {
    Count(actions, PutInBag1) + Count(actions, PutInBag2)
  }

  // ----- single actions -----

  /** Pickup can fire exactly when the hand is empty and the pile is not, and
      its effect then fixes every count of the next state. */
  lemma PickupEnabledIff(cur: State)
    ensures (exists next :: PickupAction(cur, next)) <==> cur.hand == 0 && cur.pile > 0
    ensures forall n1, n2 :: PickupAction(cur, n1) && PickupAction(cur, n2) ==> n1 == n2
  {
    if cur.hand == 0 && cur.pile > 0 {
      assert PickupAction(cur, State(cur.hand + 1, cur.bag1, cur.bag2, cur.pile - 1));
    }
  }

  /** Putting into a bag can fire exactly when the hand holds a stone and the
      bag has room, and its effect then fixes every count of the next state. */
  lemma PutInBagEnabledIff(cur: State, bag: Bag)
    ensures (exists next :: PutInBagAction(cur, next, bag)) <==> cur.hand > 0 && BagStones(cur, bag) < 1
    ensures forall n1, n2 :: PutInBagAction(cur, n1, bag) && PutInBagAction(cur, n2, bag) ==> n1 == n2
  {
    if cur.hand > 0 && BagStones(cur, bag) < 1 {
      var next := if bag == Bag1 then State(cur.hand - 1, cur.bag1 + 1, cur.bag2, cur.pile)
                  else State(cur.hand - 1, cur.bag1, cur.bag2 + 1, cur.pile);
      assert PutInBagAction(cur, next, bag);
    }
  }

  /** Every action moves exactly one stone, so the total is conserved. */
  lemma ActionConservesStones(a: Action, cur: State, next: State)
    requires ApplyAction(a, cur, next)
    ensures Total(next) == Total(cur)
  {
  }

  /** No action can take a bag over capacity: the standing invariant is kept by
      every action. */
  lemma ActionPreservesCapacity(a: Action, cur: State, next: State)
    requires WithinCapacity(cur) && ApplyAction(a, cur, next)
    ensures WithinCapacity(next)
  {
  }

  /** The step relation is only a disjunction over action names, yet no pair of
      states is explained by two different actions: the three transitions are
      mutually exclusive. */
  lemma TransitionsExclusive(a: Action, b: Action, cur: State, next: State)
    requires ApplyAction(a, cur, next) && ApplyAction(b, cur, next)
    ensures a == b
  {
  }

  // ----- traces -----

  lemma ChainPrefix(states: seq<State>, actions: seq<Action>, k: nat)
    requires Chain(states, actions) && k <= |actions|
    ensures Chain(states[..k + 1], actions[..k])
  {
  }

  /** The pile never grows along a chain. */
  lemma {:induction false} PileNeverIncreases(states: seq<State>, actions: seq<Action>, i: nat, j: nat)
    requires Chain(states, actions) && i <= j <= |actions|
    ensures states[j].pile <= states[i].pile
  {
    if i < j {
      PileNeverIncreases(states, actions, i, j - 1);
      assert ApplyAction(actions[j - 1], states[j - 1], states[j]);
    }
  }

  /** Each action is one of the three names. */
  lemma {:induction false} CountsPartition(actions: seq<Action>)
    ensures Count(actions, Pickup) + Puts(actions) == |actions|
  {
    if actions != [] {
      CountsPartition(actions[..|actions| - 1]);
    }
  }

  /** From the initial state, the last state of a chain is determined by how
      many times each action fired: the pile lost one stone per pickup, each
      bag gained one per put into it, and the hand holds the pickups not yet
      put away, which is 0 or 1. Hence capacity holds without being assumed. */
  lemma {:induction false} ChainFromInitial(states: seq<State>, actions: seq<Action>)
    requires Chain(states, actions) && IsInitial(states[0])
    ensures states[|actions|].pile == 2 - Count(actions, Pickup) >= 0
    ensures states[|actions|].bag1 == Count(actions, PutInBag1)
    ensures states[|actions|].bag2 == Count(actions, PutInBag2)
    ensures states[|actions|].hand == Count(actions, Pickup) - Puts(actions)
    ensures 0 <= states[|actions|].hand <= 1
    ensures WithinCapacity(states[|actions|])
  {
    if actions != [] {
      var k := |actions| - 1;
      ChainPrefix(states, actions, k);
      ChainFromInitial(states[..k + 1], actions[..k]);
      assert states[..k + 1][k] == states[k];
      assert ApplyAction(actions[k], states[k], states[k + 1]);
    }
  }

  /** From the initial state at most four actions can fire in a row: two
      pickups empty the pile, and puts never outnumber pickups. */
  lemma AtMostFourActions(states: seq<State>, actions: seq<Action>)
    requires Chain(states, actions) && IsInitial(states[0])
    ensures |actions| <= 4
  {
    ChainFromInitial(states, actions);
    CountsPartition(actions);
  }

  /** The encoding as written cannot be satisfied once it asks for more than four
      chained transitions, and with ten it asks for ten: the constraint set is
      unsatisfiable. */
  lemma BagPileUnsatisfiable(states: seq<State>, actions: seq<Action>, n: nat)
    requires n > 4
    ensures !BagPile(states, actions, n)
  {
    if |states| == n + 2 && Chain(states[..n + 1], actions) && IsInitial(states[0]) {
      AtMostFourActions(states[..n + 1], actions);
    }
  }

  lemma TenStepEncodingUnsatisfiable(states: seq<State>, actions: seq<Action>)
    ensures !BagPile(states, actions, INTERMEDIATE_STEPS)
  {
    BagPileUnsatisfiable(states, actions, INTERMEDIATE_STEPS);
  }

  /** The four-action plan: pickup, put into bag 1, pickup, put into bag 2. */
  function DemoActions(): seq<Action> {
    [Pickup, PutInBag1, Pickup, PutInBag2]
  }

  function DemoStates(): seq<State> {
    [State(0, 0, 0, 2), State(1, 0, 0, 1), State(0, 1, 0, 1), State(1, 1, 0, 0), State(0, 1, 1, 0)]
  }

  /** A chain extends by any action enabled in its last state. */
  lemma ChainExtend(states: seq<State>, actions: seq<Action>, a: Action, next: State)
    requires Chain(states, actions) && ApplyAction(a, states[|actions|], next)
    ensures Chain(states + [next], actions + [a])
  {
    var states', actions' := states + [next], actions + [a];
    forall i | 0 <= i < |actions'| ensures ApplyAction(actions'[i], states'[i], states'[i + 1]) {
      if i < |actions| {
        assert actions'[i] == actions[i] && states'[i] == states[i] && states'[i + 1] == states[i + 1];
      }
    }
  }

  lemma DemoIsChain()
    ensures Chain(DemoStates(), DemoActions())
    ensures IsInitial(DemoStates()[0]) && IsGoal(DemoStates()[|DemoActions()|])
  {
    var s0, s1, s2, s3, s4 := State(0, 0, 0, 2), State(1, 0, 0, 1), State(0, 1, 0, 1), State(1, 1, 0, 0), State(0, 1, 1, 0);
    assert Chain([s0], []);
    ChainExtend([s0], [], Pickup, s1);
    ChainExtend([s0, s1], [Pickup], PutInBag1, s2);
    ChainExtend([s0, s1, s2], [Pickup, PutInBag1], Pickup, s3);
    ChainExtend([s0, s1, s2, s3], [Pickup, PutInBag1, Pickup], PutInBag2, s4);
    var states, actions := [s0, s1, s2, s3] + [s4], [Pickup, PutInBag1, Pickup] + [PutInBag2];
    assert Chain(states, actions);
    assert states == DemoStates();
    assert actions == DemoActions();
  }

  /** With three intermediate states, the first three actions of the
      four-action plan and a free goal state satisfy the encoding as written. */
  lemma ThreeStepBagPile()
    ensures BagPile(DemoStates(), DemoActions()[..3], 3)
  {
    DemoIsChain();
    ChainPrefix(DemoStates(), DemoActions(), 3);
    assert DemoStates()[..4] == DemoStates()[..3 + 1];
  }

  /** Because the goal state is linked to no transition, the encoding as
      written is satisfiable with three intermediate states, although no plan
      of at most three actions reaches the goal. */
  lemma UnlinkedGoalAdmitsShortTrace()
    ensures exists states, actions :: BagPile(states, actions, 3) && |states| == 5 && !IsGoal(states[3])
    ensures forall states, actions :: !Plan(states, actions, 3)
  {
    var states, actions := DemoStates(), DemoActions()[..3];
    ThreeStepBagPile();
    assert |states| == 5 && !IsGoal(states[3]);
    PlanExistsIff(3);
  }

  /** The encoding as written is satisfiable exactly when it has at most four
      intermediate states: the first n actions of the four-action plan, followed
      by a free goal state, satisfy it. */
  lemma BagPileSatisfiableIff(n: nat)
    ensures (exists states, actions :: BagPile(states, actions, n)) <==> n <= 4
  {
    if n <= 4 {
      DemoIsChain();
      ChainPrefix(DemoStates(), DemoActions(), n);
      var demo := DemoStates();
      var linked := demo[..n + 1];
      var states, actions := linked + [demo[4]], DemoActions()[..n];
      assert forall i :: 0 <= i < 5 ==> WithinCapacity(demo[i]);
      assert forall i :: 0 <= i <= n ==> states[i] == demo[i];
      assert states[n + 1] == demo[4];
      assert states[..n + 1] == linked;
      assert BagPile(states, actions, n);
    } else {
      forall states, actions ensures !BagPile(states, actions, n) {
        BagPileUnsatisfiable(states, actions, n);
      }
    }
  }

  // ----- the corrected encoding -----

  /** Every plan that reaches the goal has exactly four actions: two pickups
      and one put into each bag. */
  lemma PlanHasFourActions(states: seq<State>, actions: seq<Action>, horizon: nat)
    ensures Plan(states, actions, horizon) ==>
      |actions| == 4 && Count(actions, Pickup) == 2
      && Count(actions, PutInBag1) == 1 && Count(actions, PutInBag2) == 1
  {
    if Chain(states, actions) && IsInitial(states[0]) {
      ChainFromInitial(states, actions);
      CountsPartition(actions);
    }
  }

  /** A plan exists exactly when the horizon allows four actions: pickup, put
      into bag 1, pickup, put into bag 2 reaches the goal within ten steps, and
      no shorter horizon admits any plan. */
  lemma PlanExistsIff(horizon: nat)
    ensures (exists states, actions :: Plan(states, actions, horizon)) <==> horizon >= 4
  {
    if horizon >= 4 {
      DemoIsChain();
      assert Plan(DemoStates(), DemoActions(), horizon);
    } else {
      forall states, actions ensures !Plan(states, actions, horizon) {
        PlanHasFourActions(states, actions, horizon);
      }
    }
  }
}
