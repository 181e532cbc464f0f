# Transition semantics of two toy planning domains

The repository plans by satisfiability: it writes the rules of a small world as
formulas over a bounded number of time steps and asks a solver whether some
sequence of states satisfies them. This project models those rules for the
two domains the repository encodes, and proves properties of them.

- **Stone transfer** (`src/s.py`, module `StoneTransfer`, file
  `stone_transfer.dfy`). A state gives the stone counts of a hand, two bags and
  a pile. `PickupAction` moves one stone from the pile into the empty hand.
  `PutInBagAction` moves the held stone into a bag that has room. `ApplyAction`
  is the disjunction over the three action names. `BagPile` is the whole
  constraint set for `n` intermediate states. It has the capacity bound at
  every state, the initial and goal assertions, and the transitions linking
  state i to state i + 1 for i < n. The source fixes `n` at
  `intermediate_steps = 10` (`src/s.py:18`), here `INTERMEDIATE_STEPS`.
- **Kettle and cups** (`src/experiments/kettle.py`, module `KettleCups`, file
  `kettle_cups.dfy`). A world is a kettle (full, half, empty) and two cups
  (empty, full). `FillingAction` lowers the kettle one level. It also requires
  that exactly one of the cups goes from empty to full (an exclusive or).
  `NoAction` keeps everything. `Step` forces the filling flag when water is
  left and a cup is empty, and the flag selects the filling action or the
  no-op. `Encoding` adds the initial world and a goal at some step
  0..`steps`. The source fixes `steps` at `steps = 2`
  (`src/experiments/kettle.py:22`), here `STEPS`.

Both domains are pure predicates over value types. The loops in the source
only append constraints to a solver. Here they become universally quantified
conjunctions over a sequence of states.

Three points about what the encodings assert, as written:

- `src/s.py` asserts only that some action's transition holds at each step
  (the disjunction at `src/s.py:70-75`). It does not assert that exactly one
  action fires. `TransitionsExclusive` shows that in this domain at most one
  transition can hold anyway.
- `src/s.py` never links its goal state to a transition (see Findings).
  `src/experiments/kettle.py` accepts the goal at any step from 0 to `steps`,
  the initial step included.
- The comment at `src/experiments/kettle.py:52` says a fill changes "either
  one (but only one) cup". The exclusive or at lines 56-59 does not frame the
  other cup, which may go from full to empty (see Findings).

## Model

| member | source | states |
|---|---|---|
| `StoneTransfer.PickupEnabledIff` | src/s.py:41-52 | pickup can fire from a state iff the hand holds 0 stones and the pile holds more than 0; its successor is then unique, so its effect fixes all four counts |
| `StoneTransfer.PutInBagEnabledIff` | src/s.py:54-67 | putting into a bag can fire iff the hand holds a stone and that bag holds fewer than 1; its successor is then unique, so the pile and the other bag are framed |
| `StoneTransfer.ActionConservesStones` | src/s.py:41-75 | every action keeps hand + bag1 + bag2 + pile unchanged |
| `StoneTransfer.ActionPreservesCapacity` | src/s.py:37-67 | from a state within capacity (each bag at most 1), every action leads to a state within capacity |
| `StoneTransfer.TransitionsExclusive` | src/s.py:70-75 | the step is only a disjunction over action names, but two different actions never both explain the same pair of states |
| `StoneTransfer.PileNeverIncreases` | src/s.py:92-93 | along any chain of transitions the pile count never grows |
| `StoneTransfer.ChainFromInitial` | src/s.py:78-93 | after a chain from the initial state, pile = 2 - pickups (at least 0), each bag = puts into it, hand = pickups - puts (0 or 1), and capacity holds without being assumed |
| `StoneTransfer.AtMostFourActions` | src/s.py:78-93 | from the initial state at most four actions can fire in a row |
| `StoneTransfer.DemoIsChain` | src/s.py:70-75 | pickup, put into bag 1, pickup, put into bag 2 is a chain of transitions from the initial state to the goal |
| `StoneTransfer.BagPileUnsatisfiable` | src/s.py:30-93 | the constraint set with more than four intermediate states has no solution |
| `StoneTransfer.BagPileSatisfiableIff` | src/s.py:30-93 | the constraint set as written has a solution iff it has at most four intermediate states, so the bound of BagPileUnsatisfiable is tight |
| `StoneTransfer.TenStepEncodingUnsatisfiable` | src/s.py:18-93 | with the source's ten intermediate states the constraint set has no solution |
| `StoneTransfer.UnlinkedGoalAdmitsShortTrace` | src/s.py:28-93 | with three intermediate states the constraint set has a solution whose last linked state is not a goal, although no plan of at most three actions reaches the goal |
| `StoneTransfer.PlanHasFourActions` | src/s.py:78-93 | every chain from the initial state that ends in the goal has exactly two pickups and one put into each bag |
| `StoneTransfer.PlanExistsIff` | src/s.py:78-93 | a goal-reaching plan within a horizon exists iff the horizon is at least 4, so four is the minimal plan length and ten suffices |
| `KettleCups.KettleTransitionLowersOneLevel` | src/experiments/kettle.py:42-46 | the kettle transition holds iff the kettle is not empty and the next level is one below, so an empty kettle cannot pour |
| `KettleCups.FillOnlyWhenConditionHolds` | src/experiments/kettle.py:53-76 | a filling action lowers the kettle one level and can fire only when water is left and some cup is empty |
| `KettleCups.StepFillsIffCondition` | src/experiments/kettle.py:71-88 | in every step the filling flag is true iff the filling condition holds, and a step without filling leaves the world unchanged |
| `KettleCups.GoalIsStable` | src/experiments/kettle.py:71-91 | once both cups are full, every step is a no-op |
| `KettleCups.FillCanEmptyOtherCup` | src/experiments/kettle.py:53-60 | some filling action turns a full cup empty: the exclusive or does not frame the cup that is not filled |
| `KettleCups.KettleNeverRises` | src/experiments/kettle.py:71-88 | along a trace the kettle level equals its initial level minus the filling steps so far, so it never rises and at most two steps fill |
| `KettleCups.KettleLevelMonotone` | src/experiments/kettle.py:71-88 | for any steps i ≤ j of a trace, the kettle level at j is at most the level at i |
| `KettleCups.StepGainsAtMostOneCup` | src/experiments/kettle.py:49-88 | a step raises the number of full cups by at most one |
| `KettleCups.FullCupsBoundedBySteps` | src/experiments/kettle.py:36-88 | after t steps from the initial world at most t cups are full |
| `KettleCups.FillFillReachesGoal` | src/experiments/kettle.py:22-93 | with two steps, filling cup 1 and then cup 2 satisfies the whole constraint set |
| `KettleCups.EncodingSatisfiableIff` | src/experiments/kettle.py:22-93 | the constraint set has a solution iff it has at least two steps (unsatisfiable with one) |
| `KettleCups.TwoStepTraceMayMissGoal` | src/experiments/kettle.py:22-88 | some two-step trace from the initial world meets every step constraint without ever having both cups full |
| `KettleCups.FramedFillFillsOneCup` | src/experiments/kettle.py:53-60 | the framed fill is one of the fills the exclusive or admits; it fills exactly one more cup and never empties a full one |
| `KettleCups.FramedProgress` | src/experiments/kettle.py:53-88 | with the framed fill, step t ≤ 2 from the initial world has t full cups and kettle level 2 - t, and later steps leave two cups full |
| `KettleCups.FramedTwoStepsReachGoal` | src/experiments/kettle.py:22-93 | with the framed fill, every two-step trace from the initial world ends with both cups full |

## Left out

- The solver itself: creating it, adding constraints, checking, reading the model, the unsat core and the printing loops (`src/s.py:97-111`, `src/experiments/kettle.py:95-117`). These are foreign calls and console output. Satisfiability is stated instead as the existence of a sequence of states satisfying the constraint predicate.
- In `src/s.py`, `Object`, `State` and `Action` are uninterpreted sorts, so a solver model may make two of their constants equal. The model gives each of hand, bag1, bag2 and pile its own count, and makes the three action names distinct values of an enumeration. Models where object or action constants are identified are not captured. The unsatisfiability of the ten-step constraint set still carries over to them. Identifying two objects other than the two bags only forces their counts to be equal in every state. Identifying bag1 and bag2 makes the frame `If` at `src/s.py:63` contradict the bag increment for both puts, so no put can fire. Identifying action constants adds no new state sequences, because a step still needs one of the three transitions to hold.
- Aliasing of the `State` constants is captured: the constraints only see stone counts, so a sequence of count records is exactly what a solver model determines.
- Integers are unbounded in the solver's theory, and in the model too. No width or wrap-around applies.
- `src/experiments/bag_pile.py` and `src/experiments/datatypes.py` are not part of this model. They are broken drafts of the stone-transfer domain: one uses a name before defining it, and the other never runs the solver.
- The repository has no horizon search loop, plan extractor or domain validation, so none is modelled. Horizon minimality is stated instead as the two "iff" lemmas over the horizon or step count.

## Findings

| source | as written | input that shows it | evidently intended | confidence | as-written member | corrected member |
|---|---|---|---|---|---|---|
| src/s.py:92-93 | every one of the ten transitions must hold, and there is no no-op action, yet from a pile of 2 at most four actions can fire | the initial state (hand 0, bags 0, pile 2) with `intermediate_steps` = 10: the constraint set is unsatisfiable | the goal must be reached by a plan of at most ten actions (four are needed) | high, not executed | `StoneTransfer.TenStepEncodingUnsatisfiable` | `StoneTransfer.PlanExistsIff` |
| src/s.py:32 | the goal state is the last entry of the state list, but the loop links only the first `len(actions) + 1` states, so no transition reaches the goal state | three intermediate states: pickup, put into bag 1, pickup, then a free goal state; the constraints hold, but no state on the chain is a goal | the last linked state must satisfy the goal | high, not executed | `StoneTransfer.UnlinkedGoalAdmitsShortTrace` | `StoneTransfer.PlanHasFourActions` |
| src/experiments/kettle.py:56-59 | the exclusive or only forbids the other cup from also going empty to full; the other cup may go full to empty | kettle half, cup 1 full, cup 2 empty, then kettle empty, cup 1 empty, cup 2 full: a valid filling step, and a two-step trace that never has both cups full | the cup that is not filled keeps its value | high, not executed | `KettleCups.FillCanEmptyOtherCup` | `KettleCups.FramedTwoStepsReachGoal` |
