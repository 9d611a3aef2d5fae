/** The read-only side of controllers/transactionController.js: the owner-scoped
    find, the inclusive date-window find and the `$match`/`$group` aggregation
    by category, over an in-memory collection. The commented-out fold of the
    same controller is kept as a reference semantics for the aggregation. */
module TransactionQueries {
  import opened Common
  import opened Transactions

  /** The rows that satisfy `keep`, in collection order. */
  function Where(rows: seq<Transaction>, keep: Transaction -> bool): (r: seq<Transaction>)
    ensures |r| <= |rows|
    ensures forall t :: t in r <==> t in rows && keep(t)
    ensures forall t :: multiset(r)[t] == if keep(t) then multiset(rows)[t] else 0
  {
    if rows == [] then []
    else
      var init, last := rows[..|rows| - 1], rows[|rows| - 1];
      assert rows == init + [last];
      if keep(last) then Where(init, keep) + [last] else Where(init, keep)
  }

  lemma {:induction false} WhereConcat(a: seq<Transaction>, b: seq<Transaction>, keep: Transaction -> bool)
    ensures Where(a + b, keep) == Where(a, keep) + Where(b, keep)
    decreases |b|
  {
    if b != [] {
      var init := b[..|b| - 1];
      assert (a + b)[..|a + b| - 1] == a + init;
      WhereConcat(a, init, keep);
    } else {
      assert a + b == a;
    }
  }

  /** Transaction.find({ userId }): exactly the caller's records. */
  function ForOwner(rows: seq<Transaction>, owner: UserId): (r: seq<Transaction>)
    ensures forall t :: t in r <==> t in rows && t.userId == owner
    ensures forall t :: multiset(r)[t] == if t.userId == owner then multiset(rows)[t] else 0
  {
    Where(rows, (t: Transaction) => t.userId == owner)
  }

  predicate InWindow(t: Transaction, start: int, end: int) {
    start <= t.date <= end
  }

  /** Transaction.find({ userId, date: { $gte: start, $lte: end } }). */
  function InRange(rows: seq<Transaction>, owner: UserId, start: int, end: int): (r: seq<Transaction>)
    ensures forall t :: t in r <==> t in rows && t.userId == owner && start <= t.date <= end
    ensures forall t :: multiset(r)[t] == (if t.userId == owner && InWindow(t, start, end) then multiset(rows)[t] else 0)
  {
    Where(rows, (t: Transaction) => t.userId == owner && InWindow(t, start, end))
  }

  /** The `$match` stage of getTotalIncome / getTotalExpenses. */
  function Matching(rows: seq<Transaction>, owner: UserId, kind: string, start: int, end: int): (r: seq<Transaction>)
    ensures forall t :: t in r <==> t in rows && t.userId == owner && start <= t.date <= end && t.txType == kind
  {
    Where(rows, (t: Transaction) => t.userId == owner && InWindow(t, start, end) && t.txType == kind)
  }

  /** The `$match` rows are the rows of the date-window find that have the type. */
  lemma {:induction false} MatchingRefinesRange(rows: seq<Transaction>, owner: UserId, kind: string, start: int, end: int)
    ensures Matching(rows, owner, kind, start, end) == Where(InRange(rows, owner, start, end), (t: Transaction) => t.txType == kind)
  {
    if rows != [] {
      MatchingRefinesRange(rows[..|rows| - 1], owner, kind, start, end);
    }
  }

  /** Sum of the amounts, as `reduce((acc, t) => acc + t.amount, 0)`. */
  function SumAmounts(rows: seq<Transaction>): int {
    if rows == [] then 0 else SumAmounts(rows[..|rows| - 1]) + rows[|rows| - 1].amount
  }

  function WithCategory(rows: seq<Transaction>, c: string): seq<Transaction> {
    Where(rows, (t: Transaction) => t.category == c)
  }

  function RowCategories(rows: seq<Transaction>): set<string> {
    set t | t in rows :: t.category
  }

  /** One output document of the `$group`/`$project` stages. */
  datatype CategoryTotal = CategoryTotal(category: string, totalAmount: int)

  function CategorySet(groups: seq<CategoryTotal>): set<string> {
    set g | g in groups :: g.category
  }

  predicate DistinctCategories(groups: seq<CategoryTotal>) {
    forall i, j :: 0 <= i < j < |groups| ==> groups[i].category != groups[j].category
  }

  /** Sum of totalAmount over the entries. */
  function SumTotals(groups: seq<CategoryTotal>): int {
    if groups == [] then 0 else SumTotals(groups[..|groups| - 1]) + groups[|groups| - 1].totalAmount
  }

  function IndexOfCategory(groups: seq<CategoryTotal>, c: string): (i: nat)
    ensures i <= |groups|
    ensures i < |groups| ==> groups[i].category == c
    ensures forall k :: 0 <= k < i ==> groups[k].category != c
  {
    if groups == [] then 0
    else if groups[0].category == c then 0
    else 1 + IndexOfCategory(groups[1..], c)
  }

  /** One step of `$group`: add the amount to the category's running total,
      opening a new group for a category not seen before. */
  function AddTo(groups: seq<CategoryTotal>, c: string, amount: int): seq<CategoryTotal> {
    var i := IndexOfCategory(groups, c);
    if i < |groups| then groups[i := CategoryTotal(c, groups[i].totalAmount + amount)]
    else groups + [CategoryTotal(c, amount)]
  }

  lemma AddToCategories(groups: seq<CategoryTotal>, c: string, amount: int)
    requires DistinctCategories(groups)
    ensures DistinctCategories(AddTo(groups, c, amount))
    ensures CategorySet(AddTo(groups, c, amount)) == CategorySet(groups) + {c}
  {
    var i := IndexOfCategory(groups, c);
    var r := AddTo(groups, c, amount);
    if i < |groups| {
      forall x ensures x in CategorySet(r) <==> x in CategorySet(groups) + {c} {
        if x in CategorySet(groups) {
          var k :| 0 <= k < |groups| && groups[k].category == x;
          assert r[k].category == x;
        }
        if x in CategorySet(r) {
          var k :| 0 <= k < |r| && r[k].category == x;
          assert groups[k].category == x;
        }
      }
    } else {
      forall x ensures x in CategorySet(r) <==> x in CategorySet(groups) + {c} {
        if x in CategorySet(r) {
          var k :| 0 <= k < |r| && r[k].category == x;
          if k < |groups| { assert groups[k].category == x; }
        }
        if x in CategorySet(groups) {
          var k :| 0 <= k < |groups| && groups[k].category == x;
          assert r[k].category == x;
        }
      }
    }
  }

  /** `$group: { _id: "$category", totalAmount: { $sum: "$amount" } }` followed
      by the `$project` that renames `_id` to `category`: one entry per category
      that occurs among the rows, in order of first occurrence. */
  function Group(rows: seq<Transaction>): (r: seq<CategoryTotal>)
    ensures DistinctCategories(r)
    ensures CategorySet(r) == RowCategories(rows)
  {
    if rows == [] then []
    else
      var init, last := rows[..|rows| - 1], rows[|rows| - 1];
      var groups := Group(init);
      AddToCategories(groups, last.category, last.amount);
      assert rows == init + [last];
      assert RowCategories(rows) == RowCategories(init) + {last.category};
      AddTo(groups, last.category, last.amount)
  }

  /** Aggregation result of getTotalIncome (kind == Income) and getTotalExpenses
      (kind == Expense). */
  function Aggregate(rows: seq<Transaction>, owner: UserId, kind: string, start: int, end: int): (r: seq<CategoryTotal>)
    ensures DistinctCategories(r)
    ensures CategorySet(r) == RowCategories(Matching(rows, owner, kind, start, end))
  {
    Group(Matching(rows, owner, kind, start, end))
  }

  lemma SumTotalsUpdate(groups: seq<CategoryTotal>, i: nat, g: CategoryTotal)
    requires i < |groups|
    ensures SumTotals(groups[i := g]) == SumTotals(groups) - groups[i].totalAmount + g.totalAmount
    decreases |groups|
  {
    var n := |groups| - 1;
    if i < n {
      assert groups[i := g][..n] == groups[..n][i := g];
      SumTotalsUpdate(groups[..n], i, g);
    } else {
      assert groups[i := g][..n] == groups[..n];
    }
  }

  lemma AddToSum(groups: seq<CategoryTotal>, c: string, amount: int)
    ensures SumTotals(AddTo(groups, c, amount)) == SumTotals(groups) + amount
  {
    var i := IndexOfCategory(groups, c);
    if i < |groups| {
      SumTotalsUpdate(groups, i, CategoryTotal(c, groups[i].totalAmount + amount));
    } else {
      assert (groups + [CategoryTotal(c, amount)])[..|groups|] == groups;
    }
  }

  /** The sum of the groups equals the sum of the rows. */
  lemma {:induction false} GroupSum(rows: seq<Transaction>)
    ensures SumTotals(Group(rows)) == SumAmounts(rows)
  {
    if rows != [] {
      var init, last := rows[..|rows| - 1], rows[|rows| - 1];
      GroupSum(init);
      AddToSum(Group(init), last.category, last.amount);
    }
  }

  lemma WithCategoryEmpty(rows: seq<Transaction>, c: string)
    requires c !in RowCategories(rows)
    ensures WithCategory(rows, c) == []
  {
  }

  /** Every group's total is the sum of the amounts of the rows of its category. */
  lemma {:induction false} GroupTotals(rows: seq<Transaction>)
    ensures forall i :: 0 <= i < |Group(rows)| ==>
      Group(rows)[i].totalAmount == SumAmounts(WithCategory(rows, Group(rows)[i].category))
  {
    if rows != [] {
      var init, last := rows[..|rows| - 1], rows[|rows| - 1];
      GroupTotals(init);
      var groups := Group(init);
      var r := Group(rows);
      var j := IndexOfCategory(groups, last.category);
      assert r == AddTo(groups, last.category, last.amount);
      forall i | 0 <= i < |r|
        ensures r[i].totalAmount == SumAmounts(WithCategory(rows, r[i].category))
      {
        var c := r[i].category;
        if c == last.category {
          assert WithCategory(rows, c) == WithCategory(init, c) + [last];
          assert (WithCategory(init, c) + [last])[..|WithCategory(init, c)|] == WithCategory(init, c);
          if j == |groups| {
            assert i == |groups|;
            WithCategoryEmpty(init, c);
          } else {
            assert i == j;
          }
        } else {
          assert WithCategory(rows, c) == WithCategory(init, c);
          assert i < |groups| && r[i] == groups[i];
        }
      }
    }
  }

  /** The reference fold of the commented-out statistics code: for every row,
      `acc[t.category] = (acc[t.category] || 0) + t.amount`. */
  function CategoryFold(rows: seq<Transaction>): (m: map<string, int>)
    ensures m.Keys == RowCategories(rows)
  {
    if rows == [] then map[]
    else
      var init, last := rows[..|rows| - 1], rows[|rows| - 1];
      var acc := CategoryFold(init);
      assert rows == init + [last];
      assert RowCategories(rows) == RowCategories(init) + {last.category};
      acc[last.category := (if last.category in acc then acc[last.category] else 0) + last.amount]
  }

  /** Appending a row adds its amount to its own category's sum only. */
  lemma WithCategoryStep(rows: seq<Transaction>, c: string)
    requires rows != []
    ensures SumAmounts(WithCategory(rows, c)) ==
      SumAmounts(WithCategory(rows[..|rows| - 1], c)) + (if rows[|rows| - 1].category == c then rows[|rows| - 1].amount else 0)
  {
    var init, last := rows[..|rows| - 1], rows[|rows| - 1];
    if last.category == c {
      var w := WithCategory(init, c);
      assert (w + [last])[..|w|] == w;
    }
  }

  /** The fold's entry for a category is the sum of that category's rows. */
  lemma {:induction false} CategoryFoldValues(rows: seq<Transaction>)
    ensures forall c :: c in CategoryFold(rows) ==> CategoryFold(rows)[c] == SumAmounts(WithCategory(rows, c))
  {
    if rows != [] {
      var init, last := rows[..|rows| - 1], rows[|rows| - 1];
      CategoryFoldValues(init);
      forall c | c in CategoryFold(rows)
        ensures CategoryFold(rows)[c] == SumAmounts(WithCategory(rows, c))
      {
        WithCategoryStep(rows, c);
        if c == last.category && c !in CategoryFold(init) {
          WithCategoryEmpty(init, c);
        }
      }
    }
  }

  /** The commented-out totals `transactions.filter(type).reduce(+)` over the
      window equal the sum of the aggregation's group totals. */
  lemma AggregateSum(rows: seq<Transaction>, owner: UserId, kind: string, start: int, end: int)
    ensures SumTotals(Aggregate(rows, owner, kind, start, end)) == SumAmounts(Matching(rows, owner, kind, start, end))
  {
    GroupSum(Matching(rows, owner, kind, start, end));
  }

  /** What getTotalIncome / getTotalExpenses answer: one entry per distinct
      category among the caller's rows of the type inside the inclusive window,
      whose totalAmount is the sum of those rows' amounts. */
  lemma AggregateSpec(rows: seq<Transaction>, owner: UserId, kind: string, start: int, end: int)
    ensures var r := Aggregate(rows, owner, kind, start, end);
      && DistinctCategories(r)
      && (forall c :: c in CategorySet(r) <==>
            exists t :: t in rows && t.userId == owner && start <= t.date <= end && t.txType == kind && t.category == c)
      && (forall i :: 0 <= i < |r| ==>
            r[i].totalAmount == SumAmounts(WithCategory(Matching(rows, owner, kind, start, end), r[i].category)))
  {
    var m := Matching(rows, owner, kind, start, end);
    GroupTotals(m);
    forall c ensures c in RowCategories(m) <==>
      exists t :: t in rows && t.userId == owner && start <= t.date <= end && t.txType == kind && t.category == c
    {
      if c in RowCategories(m) {
        var t :| t in m && t.category == c;
      }
    }
  }
}
