/**
 * The savings ledger of the savings-goals screen: one unallocated pool
 * and a list of goals, each holding an allocated amount. Every handler
 * runs its guards in the source's order and, when they all pass, writes
 * the pool and the goal list; a failed guard changes nothing. The writes
 * go through the store's goal operations, which are the reducer's `map`
 * and `filter` (`KakeiboContext.SetCurrentAmount`, `KakeiboContext.RemoveGoals`).
 */
module SavingsGoals {
  import opened Common
  import KakeiboContext

  /** `goals.reduce((total, goal) => total + (goal.current_amount || 0), 0)`. */
  function AllocatedSum(goals: seq<Goal>): real {
    if goals == [] then 0.0 else AllocatedSum(goals[..|goals| - 1]) + Allocated(goals[|goals| - 1])
  }

  /** The id of goal `i`. */
  function IdAt(goals: seq<Goal>, i: nat): string
    requires i < |goals|
  {
    goals[i].id
  }

  /** No two goals share an id. */
  predicate DistinctIds(goals: seq<Goal>) {
    forall i, j :: 0 <= i < j < |goals| ==> IdAt(goals, i) != IdAt(goals, j)
  }

  /** Two goals of a list with distinct ids have different ids. */
  lemma DistinctIdsAt(goals: seq<Goal>, i: nat, j: nat)
    requires DistinctIds(goals) && i < |goals| && j < |goals| && i != j
    ensures goals[i].id != goals[j].id
  {
    if i < j {
      assert IdAt(goals, i) != IdAt(goals, j);
    } else {
      assert IdAt(goals, j) != IdAt(goals, i);
    }
  }

  /** Ids that differ pairwise are distinct. */
  lemma DistinctIdsFrom(goals: seq<Goal>)
    requires forall i, j :: 0 <= i < j < |goals| ==> goals[i].id != goals[j].id
    ensures DistinctIds(goals)
  {
  }

  /** The index of the first goal with id `goalId`. */
  function FindIndex(goals: seq<Goal>, goalId: string): (r: Option<nat>)
    ensures r.Some? ==> r.value < |goals| && goals[r.value].id == goalId
    ensures r.Some? ==> forall j :: 0 <= j < r.value ==> goals[j].id != goalId
    ensures r.None? ==> forall j :: 0 <= j < |goals| ==> goals[j].id != goalId
  {
    if goals == [] then None
    else if goals[0].id == goalId then Some(0)
    else match FindIndex(goals[1..], goalId)
      case None => None
      case Some(k) => Some(k + 1)
  }

  /** `goals.find(g => g.id === goalId)`. */
  function FindGoal(goals: seq<Goal>, goalId: string): (r: Option<Goal>)
    ensures r.Some? <==> FindIndex(goals, goalId).Some?
    ensures r.Some? ==> r.value == goals[FindIndex(goals, goalId).value] && r.value.id == goalId
  {
    match FindIndex(goals, goalId)
    case None => None
    case Some(k) => Some(goals[k])
  }

  /** The goal at `k` is the only one with id `goalId`. */
  predicate OnlyAt(goals: seq<Goal>, goalId: string, k: nat) {
    && k < |goals| && goals[k].id == goalId
    && forall j :: 0 <= j < |goals| && j != k ==> goals[j].id != goalId
  }

  /** Summing a concatenation sums the parts. */
  lemma {:induction false} AllocatedSumAppend(a: seq<Goal>, b: seq<Goal>)
    ensures AllocatedSum(a + b) == AllocatedSum(a) + AllocatedSum(b)
    decreases |b|
  {
    if b == [] {
      assert a + b == a;
    } else {
      var b' := b[..|b| - 1];
      assert (a + b)[..|a + b| - 1] == a + b';
      AllocatedSumAppend(a, b');
    }
  }

  /** A goal without an amount adds nothing to the allocated total. */
  lemma MissingAmountCountsZero(goals: seq<Goal>, g: Goal)
    requires g.currentAmount.None?
    ensures AllocatedSum(goals + [g]) == AllocatedSum(goals)
  {
    assert (goals + [g])[..|goals|] == goals;
  }

  /** Non-negative allocations have a non-negative total. */
  lemma {:induction false} AllocatedSumNonNegative(goals: seq<Goal>)
    requires forall i :: 0 <= i < |goals| ==> Allocated(goals[i]) >= 0.0
    ensures AllocatedSum(goals) >= 0.0
  {
    if goals != [] {
      AllocatedSumNonNegative(goals[..|goals| - 1]);
    }
  }

  /**
   * Setting the amount of the one goal whose id is `goalId` to `v` changes
   * the allocated total by `v` minus that goal's old amount.
   */
  lemma {:induction false} SetCurrentAmountSum(goals: seq<Goal>, goalId: string, k: nat, v: real)
    requires OnlyAt(goals, goalId, k)
    ensures AllocatedSum(KakeiboContext.SetCurrentAmount(goals, goalId, Some(v)))
         == AllocatedSum(goals) - Allocated(goals[k]) + v
    decreases |goals|
  {
    var n := |goals| - 1;
    var prefix := goals[..n];
    var r := KakeiboContext.SetCurrentAmount(goals, goalId, Some(v));
    var rp := KakeiboContext.SetCurrentAmount(prefix, goalId, Some(v));
    assert r[..n] == rp;
    assert AllocatedSum(r) == AllocatedSum(rp) + Allocated(r[n]);
    assert AllocatedSum(goals) == AllocatedSum(prefix) + Allocated(goals[n]);
    if k < n {
      assert OnlyAt(prefix, goalId, k) by {
        forall j | 0 <= j < n && j != k ensures prefix[j].id != goalId {
          assert prefix[j] == goals[j];
        }
      }
      SetCurrentAmountSum(prefix, goalId, k, v);
    } else {
      assert forall j :: 0 <= j < |prefix| ==> prefix[j].id != goalId by {
        forall j | 0 <= j < n ensures prefix[j].id != goalId {
          assert prefix[j] == goals[j];
        }
      }
      SetCurrentAmountAbsent(prefix, goalId, Some(v));
    }
  }

  /** Setting an amount on an id nobody has changes nothing. */
  lemma SetCurrentAmountAbsent(goals: seq<Goal>, goalId: string, v: Option<real>)
    requires forall j :: 0 <= j < |goals| ==> goals[j].id != goalId
    ensures KakeiboContext.SetCurrentAmount(goals, goalId, v) == goals
  {
  }

  /** Removing the one goal whose id is `goalId` takes its amount out of the allocated total. */
  lemma {:induction false} RemoveGoalsSum(goals: seq<Goal>, goalId: string, k: nat)
    requires OnlyAt(goals, goalId, k)
    ensures AllocatedSum(KakeiboContext.RemoveGoals(goals, goalId)) == AllocatedSum(goals) - Allocated(goals[k])
    decreases |goals|
  {
    var n := |goals| - 1;
    var prefix := goals[..n];
    var kept := KakeiboContext.RemoveGoals(prefix, goalId);
    assert AllocatedSum(goals) == AllocatedSum(prefix) + Allocated(goals[n]);
    if k < n {
      assert OnlyAt(prefix, goalId, k) by {
        forall j | 0 <= j < n && j != k ensures prefix[j].id != goalId {
          assert prefix[j] == goals[j];
        }
      }
      RemoveGoalsSum(prefix, goalId, k);
      assert KakeiboContext.RemoveGoals(goals, goalId) == kept + [goals[n]];
      AllocatedSumAppend(kept, [goals[n]]);
      assert AllocatedSum([goals[n]]) == Allocated(goals[n]) by {
        assert [goals[n]][..0] == [];
      }
    } else {
      assert forall j :: 0 <= j < |prefix| ==> prefix[j].id != goalId by {
        forall j | 0 <= j < n ensures prefix[j].id != goalId {
          assert prefix[j] == goals[j];
        }
      }
      KakeiboContext.RemoveGoalsAbsent(prefix, goalId);
      assert KakeiboContext.RemoveGoals(goals, goalId) == kept;
    }
  }

  /** Appending a goal whose id is new keeps the ids distinct. */
  lemma DistinctSnoc(a: seq<Goal>, g: Goal)
    requires DistinctIds(a)
    requires forall h :: h in a ==> h.id != g.id
    ensures DistinctIds(a + [g])
  {
    forall i, j | 0 <= i < j < |a + [g]| ensures (a + [g])[i].id != (a + [g])[j].id {
      if j == |a| {
        assert (a + [g])[i] in a;
      } else {
        DistinctIdsAt(a, i, j);
      }
    }
    DistinctIdsFrom(a + [g]);
  }

  /** Filtering keeps the ids distinct. */
  lemma {:induction false} RemoveGoalsDistinct(goals: seq<Goal>, goalId: string)
    requires DistinctIds(goals)
    ensures DistinctIds(KakeiboContext.RemoveGoals(goals, goalId))
    decreases |goals|
  {
    if goals != [] {
      var n := |goals| - 1;
      var prefix, last := goals[..n], goals[n];
      PrefixDistinct(goals);
      RemoveGoalsDistinct(prefix, goalId);
      var kept := KakeiboContext.RemoveGoals(prefix, goalId);
      if last.id != goalId {
        LastIdNew(goals, goalId);
        DistinctSnoc(kept, last);
      } else {
        assert KakeiboContext.RemoveGoals(goals, goalId) == kept;
      }
    }
  }

  /** Dropping the last goal keeps the ids distinct. */
  lemma PrefixDistinct(goals: seq<Goal>)
    requires DistinctIds(goals) && goals != []
    ensures DistinctIds(goals[..|goals| - 1])
  {
    var prefix := goals[..|goals| - 1];
    forall i, j | 0 <= i < j < |prefix| ensures prefix[i].id != prefix[j].id {
      DistinctIdsAt(goals, i, j);
    }
    DistinctIdsFrom(prefix);
  }

  /** With distinct ids, no goal kept from before the last one has the last one's id. */
  lemma LastIdNew(goals: seq<Goal>, goalId: string)
    requires DistinctIds(goals) && goals != []
    ensures var n := |goals| - 1;
      forall h :: h in KakeiboContext.RemoveGoals(goals[..n], goalId) ==> h.id != goals[n].id
  {
    var n := |goals| - 1;
    var prefix := goals[..n];
    KakeiboContext.RemoveGoalsMembers(prefix, goalId);
    forall h | h in KakeiboContext.RemoveGoals(prefix, goalId) ensures h.id != goals[n].id {
      var j :| 0 <= j < n && prefix[j] == h;
      DistinctIdsAt(goals, j, n);
    }
  }

  /** Setting amounts keeps every id in place, so distinct ids stay distinct. */
  lemma SetCurrentAmountDistinct(goals: seq<Goal>, goalId: string, v: Option<real>)
    requires DistinctIds(goals)
    ensures DistinctIds(KakeiboContext.SetCurrentAmount(goals, goalId, v))
  {
    var r := KakeiboContext.SetCurrentAmount(goals, goalId, v);
    forall i, j | 0 <= i < j < |r| ensures r[i].id != r[j].id {
      DistinctIdsAt(goals, i, j);
    }
    DistinctIdsFrom(r);
  }

  /** Setting a non-negative amount keeps every allocation non-negative. */
  lemma SetCurrentAmountNonNegative(goals: seq<Goal>, goalId: string, v: real)
    requires forall i :: 0 <= i < |goals| ==> Allocated(goals[i]) >= 0.0
    requires v >= 0.0
    ensures var r := KakeiboContext.SetCurrentAmount(goals, goalId, Some(v));
      forall i :: 0 <= i < |r| ==> Allocated(r[i]) >= 0.0
  {
  }

  /** In a list with distinct ids, the goal at `k` is the only one with its id. */
  lemma UniqueAt(goals: seq<Goal>, k: nat)
    requires DistinctIds(goals) && k < |goals|
    ensures OnlyAt(goals, goals[k].id, k)
  {
    forall j | 0 <= j < |goals| && j != k ensures goals[j].id != goals[k].id {
      DistinctIdsAt(goals, j, k);
    }
  }

  /** Every allocation is non-negative. */
  ghost predicate AllNonNegative(goals: seq<Goal>) {
    forall i :: 0 <= i < |goals| ==> Allocated(goals[i]) >= 0.0
  }

  /**
   * Removing the goals with id `goalId`: the ids stay distinct, the total
   * loses exactly the removed goal's amount (nothing when there is none),
   * and non-negative allocations stay non-negative.
   */
  lemma RemoveFacts(goals: seq<Goal>, goalId: string)
    requires DistinctIds(goals)
    ensures var r := KakeiboContext.RemoveGoals(goals, goalId);
      && DistinctIds(r)
      && AllocatedSum(r) == AllocatedSum(goals)
           - (if FindGoal(goals, goalId).Some? then Allocated(FindGoal(goals, goalId).value) else 0.0)
      && (AllNonNegative(goals) ==> AllNonNegative(r))
  {
    RemoveGoalsDistinct(goals, goalId);
    RemovedAmount(goals, goalId);
    if AllNonNegative(goals) {
      RemoveGoalsNonNegative(goals, goalId);
    }
  }

  /** With distinct ids, the filter takes out the found goal's amount, or nothing. */
  lemma RemovedAmount(goals: seq<Goal>, goalId: string)
    requires DistinctIds(goals)
    ensures AllocatedSum(KakeiboContext.RemoveGoals(goals, goalId)) == AllocatedSum(goals)
      - (if FindIndex(goals, goalId).Some? then Allocated(goals[FindIndex(goals, goalId).value]) else 0.0)
  {
    match FindIndex(goals, goalId)
    case Some(k) =>
      UniqueAt(goals, k);
      RemoveGoalsSum(goals, goalId, k);
    case None =>
      KakeiboContext.RemoveGoalsAbsent(goals, goalId);
  }

  /** Filtering keeps every allocation non-negative. */
  lemma RemoveGoalsNonNegative(goals: seq<Goal>, goalId: string)
    requires AllNonNegative(goals)
    ensures AllNonNegative(KakeiboContext.RemoveGoals(goals, goalId))
  {
    var r := KakeiboContext.RemoveGoals(goals, goalId);
    KakeiboContext.RemoveGoalsMembers(goals, goalId);
    forall i | 0 <= i < |r| ensures Allocated(r[i]) >= 0.0 {
      assert r[i] in goals;
    }
  }

  /** Why a handler refused to act. */
  datatype Reason =
    | NoMonthlyTarget
    | MissingFields
    | InvalidAmount
    | ExceedsPool
    | GoalNotFound
    | ExceedsAllocated

  datatype Outcome = Done | Rejected(reason: Reason)

  /** The ledger's contents: the unallocated pool and the goals. */
  datatype Funds = Funds(pool: real, goals: seq<Goal>)

  /** A handler's outcome and the funds after it. */
  datatype Step = Step(outcome: Outcome, after: Funds)

  /** `totalSavings`: the pool plus everything allocated to goals. */
  function Total(f: Funds): real {
    f.pool + AllocatedSum(f.goals)
  }

  /** Goal ids are distinct, as the store assigns them. */
  predicate ValidFunds(f: Funds) {
    DistinctIds(f.goals)
  }

  /** The pool and every allocation are non-negative. */
  ghost predicate NonNegative(f: Funds) {
    f.pool >= 0.0 && AllNonNegative(f.goals)
  }

  /** `handleAddMonthlySavings`. */
  function AddMonthlySavingsStep(f: Funds, income: Option<IncomeRecord>): Step {
    var target := MonthlySavings(income);
    if target == 0.0 then Step(Rejected(NoMonthlyTarget), f)
    else Step(Done, f.(pool := f.pool + target))
  }

  /** `handleAddGoal`; `freshId` is the id the store assigns to the new goal. */
  function AddGoalStep(f: Funds, name: string, targetText: string, targetAmount: real, deadline: Date, freshId: string): Step {
    if name == "" || targetText == "" then Step(Rejected(MissingFields), f)
    else Step(Done, f.(goals := f.goals + [Goal(freshId, name, targetAmount, Some(0.0), deadline)]))
  }

  /** `handleAllocateToGoal`. */
  function AllocateStep(f: Funds, goalId: string, amount: real): Step {
    var goal := FindGoal(f.goals, goalId);
    if amount <= 0.0 then Step(Rejected(InvalidAmount), f)
    else if amount > f.pool then Step(Rejected(ExceedsPool), f)
    else if goal.None? then Step(Rejected(GoalNotFound), f)
    else Step(Done, Funds(f.pool - amount,
      KakeiboContext.SetCurrentAmount(f.goals, goalId, Some(Allocated(goal.value) + amount))))
  }

  /** `handleReturnToPool`; the goal must exist, since the source reads it unchecked. */
  function ReturnStep(f: Funds, goalId: string, amount: real): Step
    requires FindGoal(f.goals, goalId).Some?
  {
    var goal := FindGoal(f.goals, goalId).value;
    if amount <= 0.0 then Step(Rejected(InvalidAmount), f)
    else if amount > Allocated(goal) then Step(Rejected(ExceedsAllocated), f)
    else Step(Done, Funds(f.pool + amount,
      KakeiboContext.SetCurrentAmount(f.goals, goalId, Some(Allocated(goal) - amount))))
  }

  /** `handleAdjustPool`: "add" adds, any other action withdraws. */
  function AdjustPoolStep(f: Funds, action: string, amount: real): Step {
    if amount <= 0.0 then Step(Rejected(InvalidAmount), f)
    else if action == "add" then Step(Done, f.(pool := f.pool + amount))
    else if amount > f.pool then Step(Rejected(ExceedsPool), f)
    else Step(Done, f.(pool := f.pool - amount))
  }

  /** `handleDeleteGoal`: credit a positive amount to the pool, then remove the goal. */
  function DeleteGoalStep(f: Funds, goalId: string): Funds {
    var goal := FindGoal(f.goals, goalId);
    var pool := if goal.Some? && Allocated(goal.value) > 0.0 then f.pool + Allocated(goal.value) else f.pool;
    Funds(pool, KakeiboContext.RemoveGoals(f.goals, goalId))
  }

  /**
   * Adding the monthly target is refused exactly when the target is 0 or
   * absent, and otherwise adds the target to the pool alone.
   */
  lemma AddMonthlySavingsResult(f: Funds, income: Option<IncomeRecord>)
    ensures var r := AddMonthlySavingsStep(f, income);
      && (r.outcome.Rejected? <==> MonthlySavings(income) == 0.0)
      && (r.outcome.Rejected? ==> r.outcome.reason == NoMonthlyTarget && r.after == f)
      && (r.outcome == Done ==> r.after.pool == f.pool + MonthlySavings(income) && r.after.goals == f.goals)
      && (ValidFunds(f) ==> ValidFunds(r.after))
      && (NonNegative(f) && MonthlySavings(income) >= 0.0 ==> NonNegative(r.after))
  {
  }

  /**
   * A new goal needs a name and a target; it is appended with nothing
   * allocated, so the total savings do not change and a fresh id keeps the
   * ids distinct.
   */
  lemma AddGoalResult(f: Funds, name: string, targetText: string, targetAmount: real, deadline: Date, freshId: string)
    ensures var r := AddGoalStep(f, name, targetText, targetAmount, deadline, freshId);
      && (r.outcome.Rejected? <==> name == "" || targetText == "")
      && (r.outcome.Rejected? ==> r.outcome.reason == MissingFields && r.after == f)
      && (r.outcome == Done ==>
            && r.after.pool == f.pool
            && |r.after.goals| == |f.goals| + 1
            && r.after.goals[..|f.goals|] == f.goals
            && r.after.goals[|f.goals|].id == freshId
            && r.after.goals[|f.goals|].currentAmount == Some(0.0))
      && Total(r.after) == Total(f)
      && (NonNegative(f) ==> NonNegative(r.after))
      && (ValidFunds(f) && (forall g :: g in f.goals ==> g.id != freshId) ==> ValidFunds(r.after))
  {
    var r := AddGoalStep(f, name, targetText, targetAmount, deadline, freshId);
    if r.outcome == Done {
      var g := Goal(freshId, name, targetAmount, Some(0.0), deadline);
      AllocatedSumAppend(f.goals, [g]);
      assert AllocatedSum([g]) == 0.0 by {
        assert [g][..0] == [];
      }
      if ValidFunds(f) && (forall h :: h in f.goals ==> h.id != freshId) {
        DistinctSnoc(f.goals, g);
      }
    }
  }

  /**
   * Allocation is refused for a non-positive amount, then for an amount
   * above the pool, then for an unknown goal, and a refusal changes nothing.
   */
  lemma AllocateRejects(f: Funds, goalId: string, amount: real)
    ensures var r := AllocateStep(f, goalId, amount);
      && (amount <= 0.0 ==> r.outcome == Rejected(InvalidAmount))
      && (amount > 0.0 && amount > f.pool ==> r.outcome == Rejected(ExceedsPool))
      && (0.0 < amount <= f.pool && FindGoal(f.goals, goalId).None? ==> r.outcome == Rejected(GoalNotFound))
      && (0.0 < amount <= f.pool && FindGoal(f.goals, goalId).Some? ==> r.outcome == Done)
      && (r.outcome.Rejected? ==> r.after == f)
  {
  }

  /**
   * An accepted allocation takes the amount from the pool and adds it to
   * the goal with that id; every other goal is untouched.
   */
  lemma AllocateMoves(f: Funds, goalId: string, amount: real)
    requires AllocateStep(f, goalId, amount).outcome == Done
    ensures var r := AllocateStep(f, goalId, amount);
      && r.after.pool == f.pool - amount
      && |r.after.goals| == |f.goals|
      && (forall i :: 0 <= i < |f.goals| && f.goals[i].id == goalId ==>
            Allocated(r.after.goals[i]) == Allocated(FindGoal(f.goals, goalId).value) + amount)
      && (forall i :: 0 <= i < |f.goals| && f.goals[i].id != goalId ==> r.after.goals[i] == f.goals[i])
  {
  }

  /**
   * Allocation keeps the ids distinct, keeps the total savings, and keeps
   * the pool and every allocation non-negative.
   */
  lemma AllocateConserves(f: Funds, goalId: string, amount: real)
    requires ValidFunds(f)
    ensures var r := AllocateStep(f, goalId, amount);
      && ValidFunds(r.after)
      && Total(r.after) == Total(f)
      && (NonNegative(f) ==> NonNegative(r.after))
  {
    if 0.0 < amount <= f.pool && FindIndex(f.goals, goalId).Some? {
      var k := FindIndex(f.goals, goalId).value;
      MoveConserves(f, k, f.pool - amount, Allocated(f.goals[k]) + amount);
    }
  }

  /** Allocating the whole pool is accepted and empties the pool. */
  lemma AllocateWholePool(f: Funds, goalId: string)
    requires f.pool > 0.0 && FindGoal(f.goals, goalId).Some?
    ensures AllocateStep(f, goalId, f.pool).outcome == Done
    ensures AllocateStep(f, goalId, f.pool).after.pool == 0.0
  {
  }

  /**
   * Returning to the pool is refused for a non-positive amount, then for an
   * amount above the goal's allocation, and a refusal changes nothing.
   */
  lemma ReturnRejects(f: Funds, goalId: string, amount: real)
    requires FindGoal(f.goals, goalId).Some?
    ensures var r := ReturnStep(f, goalId, amount);
      var current := Allocated(FindGoal(f.goals, goalId).value);
      && (amount <= 0.0 ==> r.outcome == Rejected(InvalidAmount))
      && (amount > 0.0 && amount > current ==> r.outcome == Rejected(ExceedsAllocated))
      && (0.0 < amount <= current ==> r.outcome == Done)
      && (r.outcome.Rejected? ==> r.after == f)
  {
  }

  /**
   * An accepted return takes the amount from the goal with that id and
   * adds it to the pool; every other goal is untouched.
   */
  lemma ReturnMoves(f: Funds, goalId: string, amount: real)
    requires FindGoal(f.goals, goalId).Some?
    requires ReturnStep(f, goalId, amount).outcome == Done
    ensures var r := ReturnStep(f, goalId, amount);
      && r.after.pool == f.pool + amount
      && |r.after.goals| == |f.goals|
      && (forall i :: 0 <= i < |f.goals| && f.goals[i].id == goalId ==>
            Allocated(r.after.goals[i]) == Allocated(FindGoal(f.goals, goalId).value) - amount)
      && (forall i :: 0 <= i < |f.goals| && f.goals[i].id != goalId ==> r.after.goals[i] == f.goals[i])
  {
  }

  /**
   * Returning keeps the ids distinct, keeps the total savings, and keeps
   * the pool and every allocation non-negative.
   */
  lemma ReturnConserves(f: Funds, goalId: string, amount: real)
    requires ValidFunds(f) && FindGoal(f.goals, goalId).Some?
    ensures var r := ReturnStep(f, goalId, amount);
      && ValidFunds(r.after)
      && Total(r.after) == Total(f)
      && (NonNegative(f) ==> NonNegative(r.after))
  {
    var k := FindIndex(f.goals, goalId).value;
    if 0.0 < amount <= Allocated(f.goals[k]) {
      assert ReturnStep(f, goalId, amount).after == Moved(f, k, f.pool + amount, Allocated(f.goals[k]) - amount);
      MoveConserves(f, k, f.pool + amount, Allocated(f.goals[k]) - amount);
    }
  }

  /** The funds after a move between the pool and goal `k`: the pool now holds `pool` and the goal `amount`. */
  function Moved(f: Funds, k: nat, pool: real, amount: real): Funds
    requires k < |f.goals|
  {
    Funds(pool, KakeiboContext.SetCurrentAmount(f.goals, f.goals[k].id, Some(amount)))
  }

  /**
   * A move that takes from one side what it gives the other keeps the ids
   * distinct and the total savings, and keeps the funds non-negative when
   * neither side goes below 0.
   */
  lemma MoveConserves(f: Funds, k: nat, pool: real, amount: real)
    requires ValidFunds(f) && k < |f.goals|
    requires pool + amount == f.pool + Allocated(f.goals[k])
    ensures ValidFunds(Moved(f, k, pool, amount))
    ensures Total(Moved(f, k, pool, amount)) == Total(f)
    ensures NonNegative(f) && pool >= 0.0 && amount >= 0.0 ==> NonNegative(Moved(f, k, pool, amount))
  {
    SetCurrentAmountDistinct(f.goals, f.goals[k].id, Some(amount));
    UniqueAt(f.goals, k);
    MoveKeepsTotal(f, k, pool, amount);
    if NonNegative(f) && pool >= 0.0 && amount >= 0.0 {
      SetCurrentAmountNonNegative(f.goals, f.goals[k].id, amount);
    }
  }

  /** The total after a move is the new pool plus the other goals' amounts plus the goal's new amount. */
  lemma MoveKeepsTotal(f: Funds, k: nat, pool: real, amount: real)
    requires k < |f.goals| && OnlyAt(f.goals, f.goals[k].id, k)
    requires pool + amount == f.pool + Allocated(f.goals[k])
    ensures Total(Moved(f, k, pool, amount)) == Total(f)
  {
    SetCurrentAmountSum(f.goals, f.goals[k].id, k, amount);
  }

  /**
   * Adjusting the pool refuses a non-positive amount; "add" adds it; any
   * other action withdraws it and is refused when it exceeds the pool. The
   * goals never change and the pool never becomes negative.
   */
  lemma AdjustPoolResult(f: Funds, action: string, amount: real)
    ensures var r := AdjustPoolStep(f, action, amount);
      && (amount <= 0.0 ==> r.outcome == Rejected(InvalidAmount))
      && (amount > 0.0 && action == "add" ==> r.outcome == Done && r.after.pool == f.pool + amount)
      && (amount > 0.0 && action != "add" && amount > f.pool ==> r.outcome == Rejected(ExceedsPool))
      && (amount > 0.0 && action != "add" && amount <= f.pool ==> r.outcome == Done && r.after.pool == f.pool - amount)
      && (r.outcome.Rejected? ==> r.after == f)
      && r.after.goals == f.goals
      && (f.pool >= 0.0 ==> r.after.pool >= 0.0)
  {
  }

  /**
   * Deleting a goal credits its positive amount to the pool and removes
   * exactly the goals with that id; with non-negative allocations the
   * total savings are unchanged.
   */
  lemma DeleteGoalResult(f: Funds, goalId: string)
    requires ValidFunds(f)
    ensures var r := DeleteGoalStep(f, goalId);
      && (forall g :: g in r.goals <==> g in f.goals && g.id != goalId)
      && ValidFunds(r)
      && (NonNegative(f) ==> NonNegative(r) && Total(r) == Total(f))
  {
    RemoveFacts(f.goals, goalId);
    KakeiboContext.RemoveGoalsMembers(f.goals, goalId);
  }

  /**
   * The savings-goals screen as an object: its handlers update the pool
   * and the goal list in place, each as the matching step function says.
   */
  class Ledger {
    /** The unallocated pool, `state.savingsPool || 0`. */
    var pool: real
    var goals: seq<Goal>

    /** The pool and the goals as one value. */
    function Contents(): Funds
      reads this
    {
      Funds(pool, goals)
    }

    /** Goal ids are distinct, as the store assigns them. */
    ghost predicate Valid()
      reads this
    {
      DistinctIds(goals)
    }

    /** The screen as the store hands it over: `state.savingsPool || 0` and the goal list. */
    constructor(savingsPool: Option<real>, initialGoals: seq<Goal>)
      requires DistinctIds(initialGoals)
      ensures Valid()
      ensures Contents() == Funds(savingsPool.GetOr(0.0), initialGoals)
    {
      pool := savingsPool.GetOr(0.0);
      goals := initialGoals;
    }

    /** `handleAddMonthlySavings`, as `AddMonthlySavingsStep` says. */
    method AddMonthlySavings(income: Option<IncomeRecord>) returns (o: Outcome)
      requires Valid()
      modifies this
      ensures Valid()
      ensures Step(o, Contents()) == AddMonthlySavingsStep(old(Contents()), income)
    {
      var target := MonthlySavings(income);
      if target == 0.0 {
        return Rejected(NoMonthlyTarget);
      }
      pool := pool + target;
      o := Done;
    }

    /** `handleAddGoal`, as `AddGoalStep` says; the store gives the new goal an id no goal has. */
    method AddGoal(name: string, targetText: string, targetAmount: real, deadline: Date, freshId: string)
      returns (o: Outcome)
      requires Valid()
      requires forall i :: 0 <= i < |goals| ==> goals[i].id != freshId
      modifies this
      ensures Valid() && Total(Contents()) == Total(old(Contents()))
      ensures Step(o, Contents()) == AddGoalStep(old(Contents()), name, targetText, targetAmount, deadline, freshId)
    {
      AddGoalResult(Contents(), name, targetText, targetAmount, deadline, freshId);
      if name == "" || targetText == "" {
        return Rejected(MissingFields);
      }
      goals := goals + [Goal(freshId, name, targetAmount, Some(0.0), deadline)];
      o := Done;
    }

    /** `handleAllocateToGoal`: the guards, then the pool and then the goal are written, as `AllocateStep` says. */
    method AllocateToGoal(goalId: string, amount: real) returns (o: Outcome)
      requires Valid()
      modifies this
      ensures Valid() && Total(Contents()) == Total(old(Contents()))
      ensures Step(o, Contents()) == AllocateStep(old(Contents()), goalId, amount)
    {
      if amount <= 0.0 {
        o := Rejected(InvalidAmount);
      } else if amount > pool {
        o := Rejected(ExceedsPool);
      } else {
        var goal := FindGoal(goals, goalId);
        if goal.None? {
          o := Rejected(GoalNotFound);
        } else {
          AllocateConserves(Contents(), goalId, amount);
          var newAmount := Allocated(goal.value) + amount;
          var newGoals := KakeiboContext.SetCurrentAmount(goals, goalId, Some(newAmount));
          assert AllocateStep(Contents(), goalId, amount) == Step(Done, Funds(pool - amount, newGoals));
          pool := pool - amount;
          goals := newGoals;
          o := Done;
        }
      }
    }

    /** `handleReturnToPool`: the guards, then the goal and then the pool are written, as `ReturnStep` says. */
    method ReturnToPool(goalId: string, amount: real) returns (o: Outcome)
      requires Valid() && FindGoal(goals, goalId).Some?
      modifies this
      ensures Valid() && Total(Contents()) == Total(old(Contents()))
      ensures Step(o, Contents()) == ReturnStep(old(Contents()), goalId, amount)
    {
      ReturnConserves(Contents(), goalId, amount);
      var goal := FindGoal(goals, goalId).value;
      if amount <= 0.0 {
        o := Rejected(InvalidAmount);
      } else if amount > Allocated(goal) {
        o := Rejected(ExceedsAllocated);
      } else {
        var newGoals := KakeiboContext.SetCurrentAmount(goals, goalId, Some(Allocated(goal) - amount));
        assert ReturnStep(Contents(), goalId, amount) == Step(Done, Funds(pool + amount, newGoals));
        goals := newGoals;
        pool := pool + amount;
        o := Done;
      }
    }

    /** `handleAdjustPool`, as `AdjustPoolStep` says. */
    method AdjustPool(action: string, amount: real) returns (o: Outcome)
      requires Valid()
      modifies this
      ensures Valid()
      ensures Step(o, Contents()) == AdjustPoolStep(old(Contents()), action, amount)
    {
      if amount <= 0.0 {
        return Rejected(InvalidAmount);
      }
      if action == "add" {
        pool := pool + amount;
      } else {
        if amount > pool {
          return Rejected(ExceedsPool);
        }
        pool := pool - amount;
      }
      o := Done;
    }

    /** `handleDeleteGoal`: a positive amount goes back to the pool first, then the goal is removed, as `DeleteGoalStep` says. */
    method DeleteGoal(goalId: string)
      requires Valid()
      modifies this
      ensures Valid()
      ensures Contents() == DeleteGoalStep(old(Contents()), goalId)
      ensures NonNegative(old(Contents())) ==> Total(Contents()) == Total(old(Contents()))
    {
      DeleteGoalResult(Contents(), goalId);
      var goal := FindGoal(goals, goalId);
      if goal.Some? && Allocated(goal.value) > 0.0 {
        pool := pool + Allocated(goal.value);
      }
      goals := KakeiboContext.RemoveGoals(goals, goalId);
    }
  }
}
