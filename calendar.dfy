/**
 * The calendar: for each day of a Sunday-first month grid, the events of
 * that day (the one-time expenses dated on it, then the savings goals due
 * on it), and, for a selected day, its expenses and their total.
 */
module Calendar {
  import opened Common
  import Folds
  import Dates

  /** The colour classes of `EXPENSE_CATEGORIES`, keyed by capitalised category name. */
  const CategoryColors: map<string, string> := map[
    "Housing" := "from-blue-500 to-indigo-500",
    "Subscriptions" := "from-purple-500 to-pink-500",
    "DailyNeeds" := "from-green-400 to-teal-400",
    "Wants" := "from-yellow-400 to-orange-500",
    "Leisure" := "from-pink-500 to-red-500",
    "Unexpected" := "from-red-400 to-red-700"]

  /** The colour of a savings-goal event. */
  const GoalColor := "bg-purple-500"

  /** One entry of a day: an expense or a savings-goal deadline. */
  datatype Event =
    | ExpenseEvent(title: string, amount: real, category: string, color: string)
    | GoalEvent(title: string, amount: real, currentAmount: Option<real>, color: string)

  /** The event of an expense; the colour lookup needs a known category. */
  function ExpenseEventOf(e: Expense): (ev: Event)
    requires e.category in CategoryColors
    ensures ev.ExpenseEvent? && ev.amount == e.amount && ev.category == e.category
  {
    ExpenseEvent(e.description, e.amount, e.category, CategoryColors[e.category])
  }

  /** The event of a goal: its name, target and allocated amount (which may be absent). */
  function GoalEventOf(g: Goal): (ev: Event)
    ensures ev.GoalEvent? && ev.amount == g.targetAmount && ev.currentAmount == g.currentAmount
  {
    GoalEvent(g.name, g.targetAmount, g.currentAmount, GoalColor)
  }

  /** `isSameDay(date, new Date(expense.date))`. */
  function OnDay(date: Date): Expense -> bool {
    (e: Expense) => e.date == date
  }

  /** The expenses dated on `date`, in order. */
  function DayExpenses(expenses: seq<Expense>, date: Date): seq<Expense> {
    Folds.Bucket(expenses, OnDay(date), true)
  }

  /** An expense is listed for a day exactly when it is in the list and dated on that day. */
  lemma DayExpensesExactly(expenses: seq<Expense>, date: Date, e: Expense)
    ensures e in DayExpenses(expenses, date) <==> e in expenses && e.date == date
  {
    Folds.BucketSound(expenses, OnDay(date), true);
    if e in expenses && e.date == date {
      Folds.BucketComplete(expenses, OnDay(date), true, e);
    }
  }

  /** The crash-free condition: every expense dated on `date` has a known category. */
  predicate DayCategoriesKnown(expenses: seq<Expense>, date: Date) {
    forall e :: e in expenses && e.date == date ==> e.category in CategoryColors
  }

  /** The expense events of a day, one per expense on that day, in order. */
  function ExpenseEvents(expenses: seq<Expense>, date: Date): seq<Event>
    requires DayCategoriesKnown(expenses, date)
    decreases |expenses|
  {
    if expenses == [] then []
    else
      var prefix := expenses[..|expenses| - 1];
      var last := expenses[|expenses| - 1];
      assert forall e :: e in prefix ==> e in expenses;
      ExpenseEvents(prefix, date) + (if last.date == date then [ExpenseEventOf(last)] else [])
  }

  /** The goals whose deadline is `date`, in order. */
  function DueGoals(goals: seq<Goal>, date: Date): seq<Goal>
    decreases |goals|
  {
    if goals == [] then []
    else
      var last := goals[|goals| - 1];
      DueGoals(goals[..|goals| - 1], date) + (if last.deadline == date then [last] else [])
  }

  /** The goal events of a day, one per goal due on it, in order. */
  function GoalEvents(goals: seq<Goal>, date: Date): seq<Event>
    decreases |goals|
  {
    if goals == [] then []
    else
      var last := goals[|goals| - 1];
      GoalEvents(goals[..|goals| - 1], date) + (if last.deadline == date then [GoalEventOf(last)] else [])
  }

  /**
   * `getEventsForDay`: the expense events pushed in the order of
   * `state.expenses`, then the goal events in the order of the goals.
   */
  method GetEventsForDay(expenses: seq<Expense>, goals: seq<Goal>, date: Date) returns (events: seq<Event>)
    requires DayCategoriesKnown(expenses, date)
    ensures events == ExpenseEvents(expenses, date) + GoalEvents(goals, date)
  {
    events := [];
    var i := 0;
    while i < |expenses|
      invariant 0 <= i <= |expenses|
      invariant DayCategoriesKnown(expenses[..i], date)
      invariant events == ExpenseEvents(expenses[..i], date)
    {
      var expense := expenses[i];
      assert expenses[..i + 1][..i] == expenses[..i];
      if expense.date == date {
        events := events + [ExpenseEvent(expense.description, expense.amount, expense.category, CategoryColors[expense.category])];
      }
      i := i + 1;
    }
    assert expenses[..i] == expenses;
    var expenseEvents := events;
    var j := 0;
    while j < |goals|
      invariant 0 <= j <= |goals|
      invariant events == expenseEvents + GoalEvents(goals[..j], date)
    {
      var goal := goals[j];
      assert goals[..j + 1][..j] == goals[..j];
      if goal.deadline == date {
        events := events + [GoalEvent(goal.name, goal.targetAmount, goal.currentAmount, GoalColor)];
      }
      j := j + 1;
    }
    assert goals[..j] == goals;
  }

  /** The expense events are exactly the events of the day's expenses, one each, in order. */
  lemma {:induction false} ExpenseEventsOfDay(expenses: seq<Expense>, date: Date)
    requires DayCategoriesKnown(expenses, date)
    ensures var evs := ExpenseEvents(expenses, date);
      var day := DayExpenses(expenses, date);
      && |evs| == |day|
      && forall i :: 0 <= i < |day| ==> day[i].category in CategoryColors && evs[i] == ExpenseEventOf(day[i])
    decreases |expenses|
  {
    if expenses != [] {
      var prefix := expenses[..|expenses| - 1];
      assert forall e :: e in prefix ==> e in expenses;
      ExpenseEventsOfDay(prefix, date);
    }
  }

  /** The goal events are exactly the events of the goals due that day, one each, in order. */
  lemma {:induction false} GoalEventsOfDay(goals: seq<Goal>, date: Date)
    ensures var evs := GoalEvents(goals, date);
      var due := DueGoals(goals, date);
      |evs| == |due| && forall i :: 0 <= i < |due| ==> evs[i] == GoalEventOf(due[i])
    decreases |goals|
  {
    if goals != [] {
      GoalEventsOfDay(goals[..|goals| - 1], date);
    }
  }

  /** A goal is due on a day exactly when it is in the list and its deadline is that day. */
  lemma {:induction false} DueGoalsExactly(goals: seq<Goal>, date: Date, g: Goal)
    ensures g in DueGoals(goals, date) <==> g in goals && g.deadline == date
    decreases |goals|
  {
    if goals != [] {
      var prefix := goals[..|goals| - 1];
      DueGoalsExactly(prefix, date, g);
      assert goals == prefix + [goals[|goals| - 1]];
    }
  }

  /** A day shows one event per expense dated on it and one per goal due on it. */
  lemma EventCount(expenses: seq<Expense>, goals: seq<Goal>, date: Date)
    requires DayCategoriesKnown(expenses, date)
    ensures |ExpenseEvents(expenses, date) + GoalEvents(goals, date)|
         == |DayExpenses(expenses, date)| + |DueGoals(goals, date)|
  {
    ExpenseEventsOfDay(expenses, date);
    GoalEventsOfDay(goals, date);
  }

  /** "Total for the day": Σ amounts of the one-time expenses dated on the selected day. */
  function DayTotal(expenses: seq<Expense>, day: Date): real {
    Folds.Sum(DayExpenses(expenses, day))
  }

  /** "No expenses for this date" is shown exactly when the list has no expense on that day, and the day's total is then 0. */
  lemma NoExpensesIff(expenses: seq<Expense>, day: Date)
    ensures DayExpenses(expenses, day) == [] <==> forall e :: e in expenses ==> e.date != day
    ensures DayExpenses(expenses, day) == [] ==> DayTotal(expenses, day) == 0.0
  {
    var b := DayExpenses(expenses, day);
    Folds.BucketSound(expenses, OnDay(day), true);
    if b == [] {
      forall e | e in expenses ensures e.date != day {
        DayExpensesExactly(expenses, day, e);
      }
    } else {
      assert b[0] in b;
    }
  }

  /** With positive amounts, the day's total is positive exactly when some expense is dated on that day. */
  lemma DayTotalPositive(expenses: seq<Expense>, day: Date)
    requires forall e :: e in expenses ==> e.amount > 0.0
    ensures DayTotal(expenses, day) > 0.0 <==> DayExpenses(expenses, day) != []
  {
    var b := DayExpenses(expenses, day);
    Folds.BucketSound(expenses, OnDay(day), true);
    Folds.SumPositive(b);
  }

  /** `getDaysInMonth`: the grid from the start of the week of the 1st to the end of the week of the last day. */
  function DaysInMonthView(current: Date): seq<Date>
    requires Dates.ValidDate(current) && current.year >= 1
  {
    Dates.MonthGrid(current.year, current.month)
  }

  /** The grid begins on a Sunday and ends on a Saturday, running day by day in whole weeks. */
  lemma GridWeeks(current: Date)
    requires Dates.ValidDate(current) && current.year >= 1
    ensures var g := DaysInMonthView(current);
      && |g| % 7 == 0 && 28 <= |g| <= 42
      && Dates.Weekday(g[0]) == 0 && Dates.Weekday(g[|g| - 1]) == 6
      && forall i :: 0 <= i < |g| ==> Dates.Weekday(g[i]) == i % 7
  {
    Dates.MonthGridWeeks(current.year, current.month);
    var g := DaysInMonthView(current);
    var n := |g|;
    Dates.LastOfWholeWeeks(n);
    assert Dates.Weekday(g[0]) == 0 % 7;
    assert Dates.Weekday(g[n - 1]) == (n - 1) % 7;
  }

  /**
   * `isSameMonth` marks exactly the displayed month's days of the grid,
   * the 1st in the column of its weekday and the others following in order.
   */
  lemma GridMonthDays(current: Date, i: nat)
    requires Dates.ValidDate(current) && current.year >= 1 && i < |DaysInMonthView(current)|
    ensures var g := DaysInMonthView(current);
      var lead := Dates.Lead(current.year, current.month);
      && (Dates.SameMonth(g[i], current) <==> lead <= i < lead + Dates.DaysInMonth(current.year, current.month))
      && (Dates.SameMonth(g[i], current) ==> g[i] == Date(current.year, current.month, i - lead + 1))
  {
    Dates.MonthGridCovers(current.year, current.month);
    Dates.GridInMonth(current.year, current.month, i);
  }
}
