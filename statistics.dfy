/** The pure post-processing of public/js/transactions.js: fetchStatistics folds
    the server's per-category sums into totals and category maps, and
    renderStatistics colours each expense category against the first budget
    of the same category. */
module Statistics {
  import opened Common
  import opened Transactions
  import opened TransactionQueries
  import opened Budgets

  /** The object built by `forEach(item => obj[item.category] = item.totalAmount)`:
      a later entry for the same category overwrites an earlier one. */
  function StatsMap(stats: seq<CategoryTotal>): (r: map<string, int>)
    ensures stats != [] ==> stats[|stats| - 1].category in r && r[stats[|stats| - 1].category] == stats[|stats| - 1].totalAmount
  {
    if stats == [] then map[]
    else
      var last := stats[|stats| - 1];
      StatsMap(stats[..|stats| - 1])[last.category := last.totalAmount]
  }

  /** The map has a key for exactly the categories of the entries. */
  lemma {:induction false} StatsMapKeys(stats: seq<CategoryTotal>)
    ensures StatsMap(stats).Keys == CategorySet(stats)
  {
    if stats != [] {
      var init := stats[..|stats| - 1];
      StatsMapKeys(init);
      assert stats == init + [stats[|stats| - 1]];
      assert CategorySet(stats) == CategorySet(init) + {stats[|stats| - 1].category};
    }
  }

  /** The last entry of a category is the one the map keeps. */
  lemma {:induction false} StatsMapLastWins(stats: seq<CategoryTotal>, i: nat)
    requires i < |stats|
    requires forall j :: i < j < |stats| ==> stats[j].category != stats[i].category
    ensures stats[i].category in StatsMap(stats)
    ensures StatsMap(stats)[stats[i].category] == stats[i].totalAmount
  {
    if i < |stats| - 1 {
      StatsMapLastWins(stats[..|stats| - 1], i);
    }
  }

  /** Building categoryIncome / categoryExpenses with the forEach loop. */
  method CategoryMap(stats: seq<CategoryTotal>) returns (m: map<string, int>)
    ensures m == StatsMap(stats)
    ensures m.Keys == CategorySet(stats)
    ensures forall i :: 0 <= i < |stats| && (forall j :: i < j < |stats| ==> stats[j].category != stats[i].category) ==>
      stats[i].category in m && m[stats[i].category] == stats[i].totalAmount
  {
    m := map[];
    for k := 0 to |stats|
      invariant m == StatsMap(stats[..k])
    {
      assert stats[..k + 1][..k] == stats[..k];
      m := m[stats[k].category := stats[k].totalAmount];
    }
    assert stats[..|stats|] == stats;
    StatsMapKeys(stats);
    forall i | 0 <= i < |stats| && (forall j :: i < j < |stats| ==> stats[j].category != stats[i].category)
      ensures stats[i].category in m && m[stats[i].category] == stats[i].totalAmount
    {
      StatsMapLastWins(stats, i);
    }
  }

  datatype Stats = Stats(
    totalIncome: int,
    totalExpenses: int,
    categoryIncome: map<string, int>,
    categoryExpenses: map<string, int>)

  /** fetchStatistics after both responses arrived: the totals are
      `reduce((acc, curr) => acc + curr.totalAmount, 0)` (0 for an empty list)
      and the category maps come from the two forEach loops. */
  method BuildStats(incomeStats: seq<CategoryTotal>, expenseStats: seq<CategoryTotal>) returns (s: Stats)
    ensures s.totalIncome == SumTotals(incomeStats)
    ensures s.totalExpenses == SumTotals(expenseStats)
    ensures incomeStats == [] ==> s.totalIncome == 0
    ensures expenseStats == [] ==> s.totalExpenses == 0
    ensures s.categoryIncome == StatsMap(incomeStats)
    ensures s.categoryExpenses == StatsMap(expenseStats)
  {
    var categoryIncome := CategoryMap(incomeStats);
    var categoryExpenses := CategoryMap(expenseStats);
    s := Stats(SumTotals(incomeStats), SumTotals(expenseStats), categoryIncome, categoryExpenses);
  }

  /** With distinct categories (as the server's grouping produces) the client
      map is exactly the reference fold of the commented-out server code. */
  lemma GroupMatchesFold(rows: seq<Transaction>)
    ensures StatsMap(Group(rows)) == CategoryFold(rows)
  {
    var g := Group(rows);
    var m := StatsMap(g);
    var f := CategoryFold(rows);
    StatsMapKeys(g);
    assert m.Keys == f.Keys;
    GroupTotals(rows);
    CategoryFoldValues(rows);
    forall c | c in m ensures m[c] == f[c] {
      var i :| 0 <= i < |g| && g[i].category == c;
      assert forall j :: i < j < |g| ==> g[j].category != g[i].category;
      StatsMapLastWins(g, i);
      assert m[c] == g[i].totalAmount == SumAmounts(WithCategory(rows, c));
    }
  }

  /** End to end: the dashboard's expense total and category map agree with
      the caller's expense rows inside the window. */
  lemma DashboardExpenses(rows: seq<Transaction>, owner: UserId, start: int, end: int, incomeStats: seq<CategoryTotal>)
    ensures var s := Stats(SumTotals(incomeStats), SumTotals(Aggregate(rows, owner, Expense, start, end)),
                           StatsMap(incomeStats), StatsMap(Aggregate(rows, owner, Expense, start, end)));
      && s.totalExpenses == SumAmounts(Matching(rows, owner, Expense, start, end))
      && s.categoryExpenses == CategoryFold(Matching(rows, owner, Expense, start, end))
  {
    AggregateSum(rows, owner, Expense, start, end);
    GroupMatchesFold(Matching(rows, owner, Expense, start, end));
  }

  /** The colours of renderStatistics: '#ff6384', 'orange' and the default '#000'. */
  datatype Colour = Red | Orange | Default

  /** `amount >= limit` is red; otherwise `amount >= limit / 2` (written as
      `2 * amount >= limit`, exact for integers) is orange; else default. */
  function ColourFor(amount: int, limit: int): (c: Colour)
    ensures c == Red <==> amount >= limit
    ensures c == Orange <==> amount < limit && 2 * amount >= limit
    ensures c == Default <==> amount < limit && 2 * amount < limit
  {
    if amount >= limit then Red
    else if 2 * amount >= limit then Orange
    else Default
  }

  function Rank(c: Colour): nat {
    match c
    case Default => 0
    case Orange => 1
    case Red => 2
  }

  /** Spending more never makes the colour milder, for a non-negative limit. */
  lemma ColourMonotone(a1: int, a2: int, limit: int)
    requires a1 <= a2 && limit >= 0
    ensures Rank(ColourFor(a1, limit)) <= Rank(ColourFor(a2, limit))
  {
  }

  /** `i` is the index `budgets.find(b => b.category === category)` returns. */
  predicate IsFirstBudget(budgets: seq<Budget>, category: string, i: nat) {
    && i < |budgets|
    && budgets[i].category == category
    && forall k :: 0 <= k < i ==> budgets[k].category != category
  }

  function FirstBudget(budgets: seq<Budget>, category: string): (r: Option<nat>)
    ensures r.None? <==> forall k :: 0 <= k < |budgets| ==> budgets[k].category != category
    ensures r.Some? ==> IsFirstBudget(budgets, category, r.value)
  {
    FirstWhere(budgets, (b: Budget) => b.category == category)
  }

  /** The colour of one expense category. */
  function CategoryColour(budgets: seq<Budget>, category: string, amount: int): (c: Colour)
    ensures (forall k :: 0 <= k < |budgets| ==> budgets[k].category != category) ==> c == Default
    ensures forall i: nat :: IsFirstBudget(budgets, category, i) ==> c == ColourFor(amount, budgets[i].limit)
  {
    match FirstBudget(budgets, category)
    case None => Default
    case Some(i) =>
      assert forall j: nat :: IsFirstBudget(budgets, category, j) ==> j == i;
      ColourFor(amount, budgets[i].limit)
  }

  /** With two budgets for the same category, the earlier one decides. */
  lemma EarlierBudgetDecides(budgets: seq<Budget>, i: nat, j: nat, amount: int)
    requires i < j < |budgets| && budgets[i].category == budgets[j].category
    requires forall k :: 0 <= k < i ==> budgets[k].category != budgets[i].category
    ensures CategoryColour(budgets, budgets[j].category, amount) == ColourFor(amount, budgets[i].limit)
  {
    assert IsFirstBudget(budgets, budgets[j].category, i);
  }

  /** The colour of every entry of `Object.entries(stats.categoryExpenses)`. */
  function ExpenseColours(categoryExpenses: map<string, int>, budgets: seq<Budget>): (r: map<string, Colour>)
    ensures r.Keys == categoryExpenses.Keys
  {
    map c | c in categoryExpenses :: CategoryColour(budgets, c, categoryExpenses[c])
  }

  /** End to end: on the dashboard an expense category is red exactly when the
      caller's expenses of that category in the window reach the limit of the
      first budget for it, and orange exactly when they are below it but reach
      half of it. */
  lemma DashboardColour(rows: seq<Transaction>, owner: UserId, start: int, end: int, budgets: seq<Budget>, c: string, i: nat)
    requires IsFirstBudget(budgets, c, i)
    requires exists t :: t in Matching(rows, owner, Expense, start, end) && t.category == c
    ensures var colours := ExpenseColours(StatsMap(Aggregate(rows, owner, Expense, start, end)), budgets);
      var spent := SumAmounts(WithCategory(Matching(rows, owner, Expense, start, end), c));
      && c in colours
      && (colours[c] == Red <==> spent >= budgets[i].limit)
      && (colours[c] == Orange <==> spent < budgets[i].limit && 2 * spent >= budgets[i].limit)
  {
    var m := Matching(rows, owner, Expense, start, end);
    GroupMatchesFold(m);
    CategoryFoldValues(m);
    assert c in RowCategories(m);
  }
}
