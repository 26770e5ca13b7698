/**
 * The goal tracker: each goal is marked achieved at the first projection point
 * whose metric reaches the goal's amount, and its amount can be edited.
 */
module Goals {
  import opened Common
  import opened Projection

  /** `"passive"` goals compare the inflation-adjusted income, `"networth"` goals the net worth. */
  datatype GoalType = Passive | Networth

  datatype Goal = Goal(
    id: string,
    kind: GoalType,
    goalLabel: string,  // `label` in the source; `label` is a keyword here
    amount: real,
    color: string,
    achieved: Option<bool>,
    ageAchieved: Option<real>)

  function Metric(g: Goal, p: ProjectionPoint): real {
    if g.kind == Passive then p.passiveIncomeInflationAdjusted else p.netWorth
  }

  predicate Reaches(g: Goal, p: ProjectionPoint) {
    Metric(g, p) >= g.amount
  }

  /** The first index at or after `from` whose point reaches the goal. */
  function FirstReached(g: Goal, data: seq<ProjectionPoint>, from: nat): (r: Option<nat>)
    requires from <= |data|
    decreases |data| - from
    ensures r.Some? ==> from <= r.value < |data| && Reaches(g, data[r.value])
    ensures r.Some? ==> forall j :: from <= j < r.value ==> !Reaches(g, data[j])
    ensures r.None? ==> forall j :: from <= j < |data| ==> !Reaches(g, data[j])
  {
    if from == |data| then None
    else if Reaches(g, data[from]) then Some(from)
    else FirstReached(g, data, from + 1)
  }

  /** `{ ...goal, achieved, ageAchieved }` as the scan leaves them. */
  function Evaluated(g: Goal, data: seq<ProjectionPoint>): Goal {
    match FirstReached(g, data, 0)
    case Some(i) => g.(achieved := Some(true), ageAchieved := Some(data[i].age))
    case None => g.(achieved := Some(false), ageAchieved := Some(0.0))
  }

  /**
   * A goal is achieved exactly when some point's metric reaches its amount; the
   * age reported is the age at the first such point, and 0 otherwise; nothing
   * else about the goal changes.
   */
  lemma EvaluatedSpec(g: Goal, data: seq<ProjectionPoint>)
    ensures var e := Evaluated(g, data);
            e.(achieved := g.achieved, ageAchieved := g.ageAchieved) == g
            && e.achieved == Some(exists i :: 0 <= i < |data| && Reaches(g, data[i]))
    ensures (forall i :: 0 <= i < |data| ==> !Reaches(g, data[i])) ==> Evaluated(g, data).ageAchieved == Some(0.0)
    ensures forall i :: 0 <= i < |data| && Reaches(g, data[i]) && (forall j :: 0 <= j < i ==> !Reaches(g, data[j]))
              ==> Evaluated(g, data).ageAchieved == Some(data[i].age)
  {
    var r := FirstReached(g, data, 0);
    forall i | 0 <= i < |data| && Reaches(g, data[i]) && (forall j :: 0 <= j < i ==> !Reaches(g, data[j]))
      ensures Evaluated(g, data).ageAchieved == Some(data[i].age)
    {
      assert r.Some?;
      assert r.value == i;
    }
  }

  /** An amount above every point's metric is never achieved. */
  lemma UnreachableGoal(g: Goal, data: seq<ProjectionPoint>)
    requires forall i :: 0 <= i < |data| ==> Metric(g, data[i]) < g.amount
    ensures Evaluated(g, data).achieved == Some(false) && Evaluated(g, data).ageAchieved == Some(0.0)
  {
    EvaluatedSpec(g, data);
  }

  /** An amount equal to the first point's metric is achieved at the first point's age. */
  lemma GoalMetAtStart(g: Goal, data: seq<ProjectionPoint>)
    requires |data| > 0 && g.amount == Metric(g, data[0])
    ensures Evaluated(g, data).achieved == Some(true) && Evaluated(g, data).ageAchieved == Some(data[0].age)
  {
  }

  /** The scan for one goal: a loop over the series with `break` at the first hit. */
  method EvaluateGoal(g: Goal, data: seq<ProjectionPoint>) returns (out: Goal)
    ensures out == Evaluated(g, data)
  {
    var achieved := false;
    var ageAchieved := 0.0;
    var i := 0;
    while i < |data|
      invariant 0 <= i <= |data|
      invariant !achieved && ageAchieved == 0.0
      invariant FirstReached(g, data, 0) == FirstReached(g, data, i)
    {
      var targetValue := if g.kind == Passive then data[i].passiveIncomeInflationAdjusted else data[i].netWorth;
      if targetValue >= g.amount {
        achieved := true;
        ageAchieved := data[i].age;
        break;
      }
      i := i + 1;
    }
    out := g.(achieved := Some(achieved), ageAchieved := Some(ageAchieved));
  }

  /** `goalsWithAchievement`: one evaluated goal per goal, in order. */
  method EvaluateGoals(goals: seq<Goal>, data: seq<ProjectionPoint>) returns (out: seq<Goal>)
    ensures |out| == |goals|
    ensures forall k :: 0 <= k < |goals| ==> out[k] == Evaluated(goals[k], data)
  {
    out := [];
    for k := 0 to |goals|
      invariant |out| == k
      invariant forall j :: 0 <= j < k ==> out[j] == Evaluated(goals[j], data)
    {
      var e := EvaluateGoal(goals[k], data);
      out := out + [e];
    }
  }

  /** `handleGoalChange`: the goals with `goalId` get the new amount. */
  function ChangeGoalAmount(goals: seq<Goal>, goalId: string, amount: real): (r: seq<Goal>)
    ensures |r| == |goals|
    ensures forall k :: 0 <= k < |goals| ==> r[k].(amount := goals[k].amount) == goals[k]
    ensures forall k :: 0 <= k < |goals| ==> r[k].amount == if goals[k].id == goalId then amount else goals[k].amount
  {
    seq(|goals|, k requires 0 <= k < |goals| => if goals[k].id == goalId then goals[k].(amount := amount) else goals[k])
  }

  /** Changing a goal's amount and changing it back restores the goal list. */
  lemma ChangeGoalAmountRestores(goals: seq<Goal>, goalId: string, amount: real, k: nat)
    requires k < |goals| && goals[k].id == goalId
    requires forall j :: 0 <= j < |goals| && goals[j].id == goalId ==> goals[j].amount == goals[k].amount
    ensures ChangeGoalAmount(ChangeGoalAmount(goals, goalId, amount), goalId, goals[k].amount) == goals
  {
    var once := ChangeGoalAmount(goals, goalId, amount);
    var back := ChangeGoalAmount(once, goalId, goals[k].amount);
    assert |back| == |goals|;
    forall j | 0 <= j < |goals|
      ensures back[j] == goals[j]
    {
      assert back[j].(amount := once[j].amount) == once[j];
      assert once[j].(amount := goals[j].amount) == goals[j];
    }
  }
}
