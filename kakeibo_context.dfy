/**
 * The application state and `kakeiboReducer`: a pure transition function
 * from a state and an action to the next state. Generated ids
 * (`Math.random`) are an argument, `freshId`; a payload that carries its
 * own `id` overrides it, as the object spread does.
 */
module KakeiboContext {
  import opened Common

  datatype Savings = Savings(total: real)

  datatype State = State(
    activeSection: string,
    income: Option<IncomeRecord>,
    expenses: seq<Expense>,
    recurringExpenses: seq<Expense>,
    savings: Savings,
    savingsGoals: seq<Goal>)

  /** The payload of `ADD_EXPENSE` and `ADD_RECURRING_EXPENSE`. */
  datatype ExpensePayload = ExpensePayload(
    id: Option<string>,
    amount: real,
    category: string,
    description: string,
    date: Date,
    isRecurring: bool)

  /** The payload of `ADD_SAVINGS_GOAL`. */
  datatype GoalPayload = GoalPayload(
    id: Option<string>,
    name: string,
    targetAmount: real,
    currentAmount: Option<real>,
    deadline: Date)

  /** The actions the reducer handles, and every other action type. */
  datatype Action =
    | SetActiveSection(section: string)
    | AddExpense(expense: ExpensePayload)
    | AddRecurringExpense(recurring: ExpensePayload)
    | SetIncome(income: Option<IncomeRecord>)
    | AdjustSavings(direction: string, amount: real)
    | AddSavingsGoal(goal: GoalPayload)
    | UpdateSavingsGoal(goalId: string, currentAmount: Option<real>)
    | DeleteSavingsGoal(deletedId: string)
    | Unhandled(kind: string)

  const InitialIncome: IncomeRecord :=
    IncomeRecord(Some(0.0), Some(0.0), Some(0.0), "monthly", "USD", Some(0.0), None, None, None, None)

  const InitialState: State :=
    State("overview", Some(InitialIncome), [], [], Savings(0.0), [])

  /** `{ id: <generated>, ...payload }`. */
  function NewExpense(p: ExpensePayload, freshId: string): Expense {
    Expense(p.id.GetOr(freshId), p.amount, p.category, p.description, p.date, p.isRecurring)
  }

  /** `{ id: <generated>, currentAmount: 0, ...payload }`. */
  function NewGoal(p: GoalPayload, freshId: string): Goal {
    Goal(p.id.GetOr(freshId), p.name, p.targetAmount, Some(p.currentAmount.GetOr(0.0)), p.deadline)
  }

  /**
   * `goals.map(goal => goal.id === goalId ? { ...goal, currentAmount } : goal)`:
   * the amount of every goal with that id is replaced, every other goal is kept.
   */
  function SetCurrentAmount(goals: seq<Goal>, goalId: string, v: Option<real>): (r: seq<Goal>)
    ensures |r| == |goals|
    ensures forall i :: 0 <= i < |goals| && goals[i].id == goalId ==> r[i] == goals[i].(currentAmount := v)
    ensures forall i :: 0 <= i < |goals| && goals[i].id != goalId ==> r[i] == goals[i]
  {
    if goals == [] then []
    else
      var last := goals[|goals| - 1];
      SetCurrentAmount(goals[..|goals| - 1], goalId, v)
        + [if last.id == goalId then last.(currentAmount := v) else last]
  }

  /** `goals.filter(goal => goal.id !== goalId)`; `RemoveGoalsMembers` says what it keeps. */
  function RemoveGoals(goals: seq<Goal>, goalId: string): (r: seq<Goal>)
    ensures |r| <= |goals|
  {
    if goals == [] then []
    else
      var last := goals[|goals| - 1];
      RemoveGoals(goals[..|goals| - 1], goalId) + (if last.id == goalId then [] else [last])
  }

  /** The reducer: the state after `action`. */
  function Reduce(s: State, action: Action, freshId: string): State {
    match action
    case SetActiveSection(section) => s.(activeSection := section)
    case AddExpense(p) => s.(expenses := [NewExpense(p, freshId)] + s.expenses)
    case AddRecurringExpense(p) => s.(recurringExpenses := [NewExpense(p, freshId)] + s.recurringExpenses)
    case SetIncome(income) => s.(income := income)
    case AdjustSavings(direction, amount) =>
      var newTotal := if direction == "add" then s.savings.total + amount else s.savings.total - amount;
      if newTotal < 0.0 then s else s.(savings := s.savings.(total := newTotal))
    case AddSavingsGoal(p) => s.(savingsGoals := s.savingsGoals + [NewGoal(p, freshId)])
    case UpdateSavingsGoal(goalId, v) => s.(savingsGoals := SetCurrentAmount(s.savingsGoals, goalId, v))
    case DeleteSavingsGoal(goalId) => s.(savingsGoals := RemoveGoals(s.savingsGoals, goalId))
    case Unhandled(_) => s
  }

  /** The initial state: section "overview", the default income, no expenses, no goals, nothing saved. */
  lemma InitialStateShape()
    ensures InitialState.activeSection == "overview"
    ensures InitialState.expenses == [] && InitialState.recurringExpenses == []
    ensures InitialState.savingsGoals == [] && InitialState.savings.total == 0.0
    ensures InitialState.income == Some(InitialIncome)
    ensures InitialIncome.frequency == "monthly" && InitialIncome.currency == "USD"
    ensures InitialIncome.monthlyNet == Some(0.0)
  {
  }

  /** `SET_ACTIVE_SECTION` changes the active section and nothing else. */
  lemma SetActiveSectionFrame(s: State, section: string, freshId: string)
    ensures Reduce(s, SetActiveSection(section), freshId).activeSection == section
    ensures Reduce(s, SetActiveSection(section), freshId) == s.(activeSection := section)
  {
  }

  /**
   * `ADD_EXPENSE` puts exactly one new expense at the front of the one-time
   * list, keeps the old expenses behind it in order, and changes nothing
   * else; the new id is the payload's, if it has one.
   */
  lemma AddExpensePrepends(s: State, p: ExpensePayload, freshId: string)
    ensures var r := Reduce(s, AddExpense(p), freshId);
      && |r.expenses| == |s.expenses| + 1
      && r.expenses[1..] == s.expenses
      && r.expenses[0] == NewExpense(p, freshId)
      && r.expenses[0].id == (if p.id.Some? then p.id.value else freshId)
      && r.expenses[0].amount == p.amount && r.expenses[0].date == p.date
      && r == s.(expenses := r.expenses)
  {
  }

  /** `ADD_RECURRING_EXPENSE` does the same on the recurring list only. */
  lemma AddRecurringExpensePrepends(s: State, p: ExpensePayload, freshId: string)
    ensures var r := Reduce(s, AddRecurringExpense(p), freshId);
      && |r.recurringExpenses| == |s.recurringExpenses| + 1
      && r.recurringExpenses[1..] == s.recurringExpenses
      && r.recurringExpenses[0] == NewExpense(p, freshId)
      && r.expenses == s.expenses
      && r == s.(recurringExpenses := r.recurringExpenses)
  {
  }

  /** `SET_INCOME` replaces the income record wholesale and changes nothing else. */
  lemma SetIncomeReplaces(s: State, income: Option<IncomeRecord>, freshId: string)
    ensures Reduce(s, SetIncome(income), freshId) == s.(income := income)
  {
  }

  /**
   * `ADJUST_SAVINGS` adds the amount for "add" and subtracts it for any
   * other direction; a negative result leaves the whole state unchanged.
   */
  lemma AdjustSavingsResult(s: State, direction: string, amount: real, freshId: string)
    ensures var t := if direction == "add" then s.savings.total + amount else s.savings.total - amount;
      && (t < 0.0 ==> Reduce(s, AdjustSavings(direction, amount), freshId) == s)
      && (t >= 0.0 ==> Reduce(s, AdjustSavings(direction, amount), freshId) == s.(savings := Savings(t)))
  {
  }

  /** No action makes a non-negative savings total negative. */
  lemma SavingsTotalStaysNonNegative(s: State, action: Action, freshId: string)
    requires s.savings.total >= 0.0
    ensures Reduce(s, action, freshId).savings.total >= 0.0
  {
  }

  /**
   * `ADD_SAVINGS_GOAL` appends one goal at the end; its amount is the
   * payload's, or 0 when the payload has none.
   */
  lemma AddSavingsGoalAppends(s: State, p: GoalPayload, freshId: string)
    ensures var r := Reduce(s, AddSavingsGoal(p), freshId);
      && |r.savingsGoals| == |s.savingsGoals| + 1
      && r.savingsGoals[..|s.savingsGoals|] == s.savingsGoals
      && r.savingsGoals[|s.savingsGoals|] == NewGoal(p, freshId)
      && Allocated(r.savingsGoals[|s.savingsGoals|]) == (if p.currentAmount.Some? then p.currentAmount.value else 0.0)
      && r == s.(savingsGoals := r.savingsGoals)
  {
  }

  /**
   * `UPDATE_SAVINGS_GOAL` changes the amount of exactly the goals with the
   * given id; the number and order of goals, every other goal and the rest
   * of the state are unchanged.
   */
  lemma UpdateSavingsGoalChangesOnlyMatching(s: State, goalId: string, v: Option<real>, freshId: string)
    ensures var r := Reduce(s, UpdateSavingsGoal(goalId, v), freshId);
      && |r.savingsGoals| == |s.savingsGoals|
      && (forall i :: 0 <= i < |s.savingsGoals| ==>
            r.savingsGoals[i].id == s.savingsGoals[i].id
            && r.savingsGoals[i].name == s.savingsGoals[i].name
            && (s.savingsGoals[i].id == goalId ==> r.savingsGoals[i].currentAmount == v)
            && (s.savingsGoals[i].id != goalId ==> r.savingsGoals[i] == s.savingsGoals[i]))
      && r == s.(savingsGoals := r.savingsGoals)
  {
  }

  /** The filter keeps exactly the goals whose id differs from `goalId`. */
  lemma {:induction false} RemoveGoalsMembers(goals: seq<Goal>, goalId: string)
    ensures forall g :: g in RemoveGoals(goals, goalId) <==> g in goals && g.id != goalId
  {
    if goals != [] {
      var n := |goals| - 1;
      RemoveGoalsMembers(goals[..n], goalId);
      assert goals == goals[..n] + [goals[n]];
    }
  }

  /** Filtering a concatenation filters each part: the kept goals stay in their order. */
  lemma {:induction false} RemoveGoalsAppend(a: seq<Goal>, b: seq<Goal>, goalId: string)
    ensures RemoveGoals(a + b, goalId) == RemoveGoals(a, goalId) + RemoveGoals(b, goalId)
    decreases |b|
  {
    if b == [] {
      assert a + b == a;
    } else {
      var b' := b[..|b| - 1];
      assert (a + b)[..|a + b| - 1] == a + b';
      RemoveGoalsAppend(a, b', goalId);
    }
  }

  /** Removing an id nobody has changes nothing. */
  lemma {:induction false} RemoveGoalsAbsent(goals: seq<Goal>, goalId: string)
    requires forall i :: 0 <= i < |goals| ==> goals[i].id != goalId
    ensures RemoveGoals(goals, goalId) == goals
  {
    if goals != [] {
      var n := |goals| - 1;
      RemoveGoalsAbsent(goals[..n], goalId);
      assert goals == goals[..n] + [goals[n]];
    }
  }

  /**
   * `DELETE_SAVINGS_GOAL` removes exactly the goals with that id (the
   * others keep their order, by `RemoveGoalsAppend`) and leaves the savings
   * total and all other fields unchanged; deleting twice is deleting once.
   */
  lemma DeleteSavingsGoalRemovesExactly(s: State, goalId: string, freshId: string)
    ensures var r := Reduce(s, DeleteSavingsGoal(goalId), freshId);
      && (forall g :: g in r.savingsGoals <==> g in s.savingsGoals && g.id != goalId)
      && r.savings == s.savings
      && r == s.(savingsGoals := r.savingsGoals)
      && Reduce(r, DeleteSavingsGoal(goalId), freshId) == r
  {
    var kept := RemoveGoals(s.savingsGoals, goalId);
    RemoveGoalsMembers(s.savingsGoals, goalId);
    forall i | 0 <= i < |kept| ensures kept[i].id != goalId {
      assert kept[i] in kept;
    }
    RemoveGoalsAbsent(kept, goalId);
  }

  /** Any other action type, such as `ADD_FIXED_COST` or `UPDATE_SAVINGS`, returns the state unchanged. */
  lemma UnhandledIsIdentity(s: State, kind: string, freshId: string)
    ensures Reduce(s, Unhandled(kind), freshId) == s
  {
  }
}
