/** The budget schema (models/budget.js): a per-owner, per-category spending
    limit. The (userId, category) index is not unique, so nothing here forbids
    two budgets with the same owner and category. */
module Budgets {
  import opened Common

  const MaxCategoryLength: nat := 50

  datatype Budget = Budget(userId: UserId, category: string, limit: int)

  predicate ValidBudget(b: Budget) {
    && b.category != []
    && Utf16Length(b.category) <= MaxCategoryLength
    && Trimmed(b.category)
    && b.limit >= 0
  }

  /** `new Budget({ userId, category, limit })` and its validation on save:
      all three fields are required, the category is trimmed (then it must be
      non-empty and at most 50 UTF-16 code units long) and the limit is at least 0. */
  function NewBudget(userId: Option<UserId>, category: Option<string>, limit: Option<int>): (r: Option<Budget>)
    ensures r.Some? <==> && userId.Some?
                         && category.Some? && Trim(category.value) != [] && Utf16Length(Trim(category.value)) <= MaxCategoryLength
                         && limit.Some? && limit.value >= 0
    ensures r.Some? ==> ValidBudget(r.value)
    ensures r.Some? ==> r.value == Budget(userId.value, Trim(category.value), limit.value)
  {
    if && userId.Some?
       && category.Some? && Trim(category.value) != [] && Utf16Length(Trim(category.value)) <= MaxCategoryLength
       && limit.Some? && limit.value >= 0
    then
      Some(Budget(userId.value, Trim(category.value), limit.value))
    else
      None
  }

  /** Budgets are validated one by one; there is no uniqueness constraint. */
  predicate ValidBudgets(budgets: seq<Budget>) {
    forall i :: 0 <= i < |budgets| ==> ValidBudget(budgets[i])
  }

  /** A second budget for the owner and category of a stored one, with any
      limit >= 0, passes validation as it stands, and the two records
      coexist. */
  lemma DuplicatesCoexist(budgets: seq<Budget>, b: Budget, limit: int)
    requires ValidBudgets(budgets) && b in budgets && limit >= 0
    ensures NewBudget(Some(b.userId), Some(b.category), Some(limit)) == Some(Budget(b.userId, b.category, limit))
    ensures ValidBudgets(budgets + [Budget(b.userId, b.category, limit)])
  {
    TrimOfTrimmed(b.category);
  }
}
