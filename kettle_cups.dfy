/** The kettle/cups planning domain: a kettle (full, half or empty) pours into
    two cups (empty or full). A World is the value of the three objects at one
    time step; at each step a boolean selects the filling action or the no-op,
    and filling is forced while there is water left and a cup to fill. */
module KettleCups {

  /** Number of steps of the encoding; the state lists have one more entry. */
  const STEPS: nat := 2

  datatype Kettle = Empty | Half | Full

  datatype Cup = Empty | Full

  datatype World = World(kettle: Kettle, cup1: Cup, cup2: Cup)

  /** Units of water left in the kettle. */
  function Level(k: Kettle): nat {
    match k
    case Empty => 0
    case Half => 1
    case Full => 2
  }

  /** Number of full cups. */
  function FullCups(w: World): nat {
    (if w.cup1 == Cup.Full then 1 else 0) + (if w.cup2 == Cup.Full then 1 else 0)
  }

  predicate KettleTransition(cur: Kettle, next: Kettle) {
    || (cur == Kettle.Half && next == Kettle.Empty)
    || (cur == Kettle.Full && next == Kettle.Half)
  }

  predicate CupFilling(cur: Cup, next: Cup) {
    cur == Cup.Empty && next == Cup.Full
  }

  /** The kettle steps down and exactly one of the two cups fills (an
      exclusive or of the two cup transitions). */
  predicate FillingAction(cur: World, next: World) {
    && KettleTransition(cur.kettle, next.kettle)
    && (CupFilling(cur.cup1, next.cup1) != CupFilling(cur.cup2, next.cup2))
  }

  predicate NoAction(cur: World, next: World) {
    && next.kettle == cur.kettle
    && next.cup1 == cur.cup1
    && next.cup2 == cur.cup2
  }

  /** Water is left and some cup is empty. */
  predicate FillingCondition(w: World) {
    && (w.kettle == Kettle.Full || w.kettle == Kettle.Half)
    && (w.cup1 == Cup.Empty || w.cup2 == Cup.Empty)
  }

  /** One step of the encoding: the condition forces the filling flag, and the
      flag selects the filling action or the no-op. */
  predicate Step(cur: World, next: World, filling: bool) {
    && (FillingCondition(cur) ==> filling)
    && (if filling then FillingAction(cur, next) else NoAction(cur, next))
  }

  predicate IsInitial(w: World) {
    w.kettle == Kettle.Full && w.cup1 == Cup.Empty && w.cup2 == Cup.Empty
  }

  predicate GoalReached(w: World) {
    w.cup1 == Cup.Full && w.cup2 == Cup.Full
  }

  /** The steps of a trace: `worlds` and `actions` have `steps + 1` entries, and
      step t links world t to world t + 1 under flag t for t < steps; the last
      flag is constrained by nothing. */
  predicate Linked(worlds: seq<World>, actions: seq<bool>, steps: nat) {
    && |worlds| == steps + 1
    && |actions| == steps + 1
    && forall t :: 0 <= t < steps ==> Step(worlds[t], worlds[t + 1], actions[t])
  }

  /** The whole constraint set: the initial world, the steps, and a goal at
      some step 0..steps. */
  predicate Encoding(worlds: seq<World>, actions: seq<bool>, steps: nat) {
    && Linked(worlds, actions, steps)
    && IsInitial(worlds[0])
    && exists t :: 0 <= t <= steps && GoalReached(worlds[t])
  }

  /** Number of filling steps among the flags. */
  function Fills(actions: seq<bool>): nat {
    if actions == [] then 0
    else Fills(actions[..|actions| - 1]) + (if actions[|actions| - 1] then 1 else 0)
  }

  // ----- single steps -----

  /** The kettle can only step down one level, so an empty kettle cannot pour. */
  lemma KettleTransitionLowersOneLevel(cur: Kettle, next: Kettle)
    ensures KettleTransition(cur, next) <==> Level(cur) > 0 && Level(next) == Level(cur) - 1
  {
  }

  /** A filling step lowers the kettle one level, and it can fire only when
      the filling condition holds: with an empty kettle or two full cups the
      only possible step is the no-op. */
  lemma FillOnlyWhenConditionHolds(cur: World, next: World)
    requires FillingAction(cur, next)
    ensures FillingCondition(cur)
    ensures Level(next.kettle) == Level(cur.kettle) - 1
  {
  }

  /** The flag of a step is true exactly when the filling condition holds, and a
      step without filling leaves the world unchanged. */
  lemma StepFillsIffCondition(cur: World, next: World, filling: bool)
    requires Step(cur, next, filling)
    ensures filling <==> FillingCondition(cur)
    ensures !filling ==> next == cur
  {
    if filling {
      FillOnlyWhenConditionHolds(cur, next);
    }
  }

  /** Once both cups are full nothing moves any more. */
  lemma GoalIsStable(cur: World, next: World, filling: bool)
    requires Step(cur, next, filling) && GoalReached(cur)
    ensures next == cur && !filling
  {
    StepFillsIffCondition(cur, next, filling);
  }

  /** The Xor only forbids the other cup from also going from empty to full; it
      lets a full cup be emptied by a filling step. */
  lemma FillCanEmptyOtherCup()
    ensures exists cur, next :: FillingAction(cur, next) && cur.cup1 == Cup.Full && next.cup1 == Cup.Empty
  {
    assert FillingAction(World(Kettle.Half, Cup.Full, Cup.Empty), World(Kettle.Empty, Cup.Empty, Cup.Full));
  }

  // ----- traces -----

  /** Each filling step lowers the kettle by one level and each no-op keeps it,
      so the kettle never rises and at most two steps fill. */
  lemma {:induction false} KettleNeverRises(worlds: seq<World>, actions: seq<bool>, steps: nat, t: nat)
    requires Linked(worlds, actions, steps) && t <= steps
    ensures Level(worlds[t].kettle) + Fills(actions[..t]) == Level(worlds[0].kettle)
    ensures Level(worlds[t].kettle) <= Level(worlds[0].kettle)
    ensures Fills(actions[..t]) <= 2
  {
    if t > 0 {
      KettleNeverRises(worlds, actions, steps, t - 1);
      assert actions[..t][..t - 1] == actions[..t - 1];
      StepFillsIffCondition(worlds[t - 1], worlds[t], actions[t - 1]);
      if actions[t - 1] {
        FillOnlyWhenConditionHolds(worlds[t - 1], worlds[t]);
      }
    }
  }

  /** Between any two steps of a trace the kettle level never rises. */
  lemma {:induction false} KettleLevelMonotone(worlds: seq<World>, actions: seq<bool>, steps: nat, i: nat, j: nat)
    requires Linked(worlds, actions, steps) && i <= j <= steps
    ensures Level(worlds[j].kettle) <= Level(worlds[i].kettle)
  {
    if i < j {
      KettleLevelMonotone(worlds, actions, steps, i, j - 1);
      StepFillsIffCondition(worlds[j - 1], worlds[j], actions[j - 1]);
      if actions[j - 1] {
        FillOnlyWhenConditionHolds(worlds[j - 1], worlds[j]);
      }
    }
  }

  /** A step gains at most one full cup (a filling step may also lose one). */
  lemma StepGainsAtMostOneCup(cur: World, next: World, filling: bool)
    requires Step(cur, next, filling)
    ensures FullCups(next) <= FullCups(cur) + 1
  {
  }

  /** From the initial world, after t steps at most t cups are full. */
  lemma {:induction false} FullCupsBoundedBySteps(worlds: seq<World>, actions: seq<bool>, steps: nat, t: nat)
    requires Linked(worlds, actions, steps) && IsInitial(worlds[0]) && t <= steps
    ensures FullCups(worlds[t]) <= t
  {
    if t > 0 {
      FullCupsBoundedBySteps(worlds, actions, steps, t - 1);
      StepGainsAtMostOneCup(worlds[t - 1], worlds[t], actions[t - 1]);
    }
  }

  /** The fill-fill trace of two steps. */
  function FillFillWorlds(): seq<World> {
    [World(Kettle.Full, Cup.Empty, Cup.Empty), World(Kettle.Half, Cup.Full, Cup.Empty), World(Kettle.Empty, Cup.Full, Cup.Full)]
  }

  /** With two steps, filling one cup and then the other reaches the goal. */
  lemma FillFillReachesGoal()
    ensures Encoding(FillFillWorlds(), [true, true, false], STEPS)
  {
    var worlds := FillFillWorlds();
    assert Step(worlds[0], worlds[1], true);
    assert Step(worlds[1], worlds[2], true);
    assert GoalReached(worlds[2]);
  }

  /** The encoding is satisfiable exactly when it has at least two steps: the
      fill-fill trace reaches the goal (and idles afterwards), and a single
      step can fill only one cup. */
  lemma EncodingSatisfiableIff(steps: nat)
    ensures (exists worlds, actions :: Encoding(worlds, actions, steps)) <==> steps >= 2
  {
    if steps >= 2 {
      var done := World(Kettle.Empty, Cup.Full, Cup.Full);
      var worlds := FillFillWorlds()[..2] + seq(steps - 1, _ => done);
      var actions := [true, true] + seq(steps - 1, _ => false);
      forall t | 0 <= t < steps ensures Step(worlds[t], worlds[t + 1], actions[t]) {
        if t == 0 {
          assert worlds[0] == World(Kettle.Full, Cup.Empty, Cup.Empty) && worlds[1] == World(Kettle.Half, Cup.Full, Cup.Empty);
        } else if t == 1 {
          assert worlds[1] == World(Kettle.Half, Cup.Full, Cup.Empty) && worlds[2] == done;
        } else {
          assert worlds[t] == done && worlds[t + 1] == done && !actions[t];
        }
      }
      assert GoalReached(worlds[2]);
      assert Encoding(worlds, actions, steps);
    } else {
      forall worlds, actions | Linked(worlds, actions, steps) && IsInitial(worlds[0])
        ensures forall t :: 0 <= t <= steps ==> !GoalReached(worlds[t])
      {
        forall t | 0 <= t <= steps ensures !GoalReached(worlds[t]) {
          FullCupsBoundedBySteps(worlds, actions, steps, t);
        }
      }
    }
  }

  /** As written, a trace of two steps from the initial world may miss the
      goal: the forced second fill empties the first cup. */
  lemma TwoStepTraceMayMissGoal()
    ensures exists worlds, actions ::
      && Linked(worlds, actions, STEPS)
      && IsInitial(worlds[0])
      && (forall t :: 0 <= t <= STEPS ==> !GoalReached(worlds[t]))
  {
    var worlds := [World(Kettle.Full, Cup.Empty, Cup.Empty), World(Kettle.Half, Cup.Full, Cup.Empty), World(Kettle.Empty, Cup.Empty, Cup.Full)];
    var actions := [true, true, false];
    assert Step(worlds[0], worlds[1], actions[0]);
    assert Step(worlds[1], worlds[2], actions[1]);
    assert Linked(worlds, actions, STEPS);
  }

  // ----- the corrected filling action -----

  /** Filling with a complete frame: the kettle steps down, one cup fills and
      the other cup keeps its value. */
  predicate FramedFillingAction(cur: World, next: World) {
    && KettleTransition(cur.kettle, next.kettle)
    && (|| (CupFilling(cur.cup1, next.cup1) && next.cup2 == cur.cup2)
        || (CupFilling(cur.cup2, next.cup2) && next.cup1 == cur.cup1))
  }

  predicate FramedStep(cur: World, next: World, filling: bool) {
    && (FillingCondition(cur) ==> filling)
    && (if filling then FramedFillingAction(cur, next) else NoAction(cur, next))
  }

  predicate FramedLinked(worlds: seq<World>, actions: seq<bool>, steps: nat) {
    && |worlds| == steps + 1
    && |actions| == steps + 1
    && forall t :: 0 <= t < steps ==> FramedStep(worlds[t], worlds[t + 1], actions[t])
  }

  /** The framed fill is one of the fills the Xor admits, and it fills exactly
      one more cup while never emptying one. */
  lemma FramedFillFillsOneCup(cur: World, next: World)
    requires FramedFillingAction(cur, next)
    ensures FillingAction(cur, next)
    ensures FullCups(next) == FullCups(cur) + 1
    ensures cur.cup1 == Cup.Full ==> next.cup1 == Cup.Full
    ensures cur.cup2 == Cup.Full ==> next.cup2 == Cup.Full
  {
  }

  /** With the framed fill, each of the first two steps from the initial world
      pours one unit into one more cup; after that nothing moves. */
  lemma {:induction false} FramedProgress(worlds: seq<World>, actions: seq<bool>, steps: nat, t: nat)
    requires FramedLinked(worlds, actions, steps) && IsInitial(worlds[0]) && t <= steps
    ensures FullCups(worlds[t]) == if t <= 2 then t else 2
    ensures t <= 2 ==> Level(worlds[t].kettle) == 2 - t
  {
    if t > 0 {
      FramedProgress(worlds, actions, steps, t - 1);
      var cur, next := worlds[t - 1], worlds[t];
      assert FramedStep(cur, next, actions[t - 1]);
      if t <= 2 {
        assert FillingCondition(cur);
        FramedFillFillsOneCup(cur, next);
      }
    }
  }

  /** With the framed fill every trace of two steps from the initial world
      reaches the goal. */
  lemma FramedTwoStepsReachGoal(worlds: seq<World>, actions: seq<bool>)
    requires FramedLinked(worlds, actions, STEPS) && IsInitial(worlds[0])
    ensures GoalReached(worlds[STEPS])
  {
    FramedProgress(worlds, actions, STEPS, STEPS);
  }
}
