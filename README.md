# Personal finance tracker: a verified model of its core

This project models the server-side core of an Express/Mongoose personal
finance tracker, and the small pure part of its browser client. Everything is
checked by the Dafny verifier. MongoDB collections become in-memory
sequences. Money and dates are integers (minor units and timestamps). Ids are
natural numbers handed out by a counter.

- **Transactions** (`transaction.dfy`, `transaction_queries.dfy`,
  `transaction_store.dfy`): the transaction schema and its validators. The
  collection is a class, `Collection`, with create, update and delete. Update
  and delete look a record up by id and owner together. The read side is the
  owner-scoped find, the inclusive date-window find, and the `$match` /
  `$group` / `$project` aggregation by category. It is proved equal to the
  in-memory fold that the controller keeps in a comment.
- **Budgets** (`budget.dfy`): the budget schema. Its (owner, category) index
  is not unique.
- **Dashboard statistics** (`statistics.dfy`): the client's totals and
  per-category maps (built with a `forEach` loop, so later entries win), and
  the red / orange / default colouring of each expense category against the
  first budget of that category.
- **Users** (`user.dfy`): the user schema with its trim and lowercase
  setters. `/^\S+@\S+\.\S+$/` is modelled as a string test proved equal to
  the language of the pattern. The pre-save hook re-hashes the password only
  when it was modified. `matchPassword` is included. A user document is a
  class whose setters and hook update its fields in place.
- **Accounts** (`auth.dfy`): register, activate, login, refresh, update and
  delete on a user store (`UserStore`). The store keeps an invariant:
  - every stored user passed validation;
  - ids and e-mails are unique;
  - ids come from the counter.
- **Shared string helpers** (`common.dfy`): JavaScript white space, `trim`
  and lower-casing.

bcrypt is a function parameter `hash`, and `bcrypt.compare(p, stored)`
becomes `hash(p) == stored`. The refresh-token validator is a parameter
`verify`, and the token store is a set `stored`. The uuid of an activation
link is a `link` parameter. The verdict of the express-validator rules that
run before a handler is a boolean `bodyValid`.

Where the handlers differ from what their messages suggest, the model does
what the code does:
- createTransaction answers 500, not 400, when the schema rejects the body,
  because the rejection is thrown by `save` and handled by the catch block.
- Neither create nor update checks for a positive amount. The update passes
  no `runValidators`, so no validator runs on its values. The schema's trim
  setter still applies to the new description, and the other values are
  stored as given.
- activateUser lacks a `return` after its 400 answer. Execution then fails on
  the missing user before anything is saved, so an unknown link changes
  nothing.
- Login checks the password before the activation flag: a wrong password on
  an inactive account answers 401, not 400.
- Mongoose marks the password modified only when the assigned value differs
  from the current one. So an updateUser body whose password is the stored
  hash string is not hashed, and the old password keeps working.

Length limits (`maxlength`, `minlength`) count what JavaScript's `.length`
counts: UTF-16 code units, so a character outside the Basic Multilingual
Plane counts twice (`Utf16Length`).

## Model

| member | source | states |
|---|---|---|
| Common.Trim | models/user.js:8 | the trimmed string is no longer than the input, neither end is white space, and it is empty exactly when the input is all white space |
| Common.TrimIsSlice | models/user.js:8 | the trimmed string is a contiguous slice of the input, and everything outside that slice is white space |
| Common.Utf16Length | models/transaction.js:8 | the JavaScript length of a string lies between its number of characters and twice that number |
| Common.Utf16LengthChar | models/transaction.js:8 | one character counts 2 code units from U+10000 on and 1 below |
| Common.Utf16LengthConcat | models/transaction.js:8 | the JavaScript length of a concatenation is the sum of the lengths, so with the row above the length of any string is fixed |
| Common.Utf16LengthBmp | models/user.js:9 | for a string of Basic Multilingual Plane characters the JavaScript length is the number of characters |
| Common.TrimmedIff | models/user.js:8 | a string is a fixed point of trim exactly when neither of its ends is white space |
| Common.TrimIdempotent | models/budget.js:12 | applying the trim setter a second time changes nothing |
| Common.TrimNoSpace | models/user.js:15 | a string without white space is left alone by trim |
| Common.Lower | models/user.js:16 | lower-casing keeps the length; its other properties are in the rows below |
| Common.LowerFacts | models/user.js:16 | after lower-casing no upper-case letter remains; every character other than 'A'..'Z' is kept where it was, and each of 'A'..'Z' becomes the letter 32 code points on ('a'..'z') |
| Common.LowerEqIff | models/user.js:16 | two strings lower-case to the same string exactly when they agree up to ASCII case |
| Common.LowerFixedIff | models/user.js:16 | lower-casing leaves a string unchanged exactly when it has no upper-case letter |
| Common.LowerIdempotent | models/user.js:16 | lower-casing twice is lower-casing once |
| Transactions.Build | models/transaction.js:3-36 | a document is built exactly when every validator passes: description present and trimmed to 1..100 UTF-16 code units, amount present and >= 0, type income or expense, category present. The result is valid, carries the given owner, defaults the date to the creation time and stamps createdAt/updatedAt |
| TransactionQueries.Where | controllers/transactionController.js:7 | a find with a filter keeps exactly the records satisfying it, each as often as in the collection |
| TransactionQueries.ForOwner | controllers/transactionController.js:7 | getTransactions returns exactly the caller's records and no one else's |
| TransactionQueries.InRange | controllers/transactionController.js:74-77 | getTransactionsInRange returns exactly the caller's records with start <= date <= end, inclusive at both ends |
| TransactionQueries.Matching | controllers/transactionController.js:129-133 | the `$match` stage keeps exactly the caller's records of the type inside the window |
| TransactionQueries.MatchingRefinesRange | controllers/transactionController.js:126-134 | the `$match` rows are the date-window rows of the requested type, in the same order |
| TransactionQueries.Group | controllers/transactionController.js:136-147 | the grouping yields one entry per distinct category, and its categories are exactly those of the rows |
| TransactionQueries.GroupSum | controllers/transactionController.js:172-177 | the sum of the group totals equals the sum of the grouped amounts |
| TransactionQueries.GroupTotals | controllers/transactionController.js:172-177 | each group's totalAmount is the sum of the amounts of the rows of its category |
| TransactionQueries.CategoryFold | controllers/transactionController.js:95-100 | the commented-out fold has a key for exactly the categories of the rows |
| TransactionQueries.CategoryFoldValues | controllers/transactionController.js:97-100 | the fold's entry for a category is the sum of that category's amounts |
| TransactionQueries.Aggregate | controllers/transactionController.js:126-149 | the aggregation lists no category twice, and its categories are exactly those of the matching records |
| TransactionQueries.AggregateSum | controllers/transactionController.js:164-185 | the totals of getTotalExpenses / getTotalIncome add up to the filter-and-reduce totals of the commented-out code |
| TransactionQueries.AggregateSpec | controllers/transactionController.js:126-149 | the aggregation answers one entry per category that occurs among the caller's records of the type in the window, and no other; each totalAmount is the sum of those records' amounts |
| TransactionStore.Lookup | controllers/transactionController.js:39-40 | the filter `{ _id, userId }` finds the first record matching both id and owner, or reports that none matches |
| TransactionStore.Revise | controllers/transactionController.js:39-43 | the update keeps id, owner, date and createdAt; the new description is the trim of the body's description, by the schema setter (an already trimmed one is kept as is); amount, type and category are the given values; updatedAt is the update time |
| TransactionStore.CreateScoped | controllers/transactionController.js:18-28 | a created record joins its owner's view and no other user's |
| TransactionStore.ReviseKeepsOthers | controllers/transactionController.js:39-47 | updating a record leaves every other user's records as they were |
| TransactionStore.RemoveKeepsOthers | controllers/transactionController.js:59-65 | deleting a record leaves every other user's records as they were |
| TransactionStore.RemoveExact | controllers/transactionController.js:59 | a delete removes exactly the one selected record; with unique ids no record with its id remains |
| TransactionStore.Collection.Create | controllers/transactionController.js:15-32 | the owner is the caller; 201 with the new record appended exactly when the validators pass, otherwise 500 and no change; ids stay unique |
| TransactionStore.Collection.Update | controllers/transactionController.js:34-53 | 404 with no change exactly when no record matches id and owner; otherwise 200, and only that record is replaced by its revision |
| TransactionStore.Collection.Delete | controllers/transactionController.js:55-69 | 404 with no change exactly when no record matches id and owner; otherwise 200, exactly that record is gone and nothing else changes |
| Budgets.NewBudget | models/budget.js:3-20 | a budget is stored exactly when the owner is present, the trimmed category has 1..50 UTF-16 code units and the limit is present and >= 0; the stored category is the trimmed one |
| Budgets.DuplicatesCoexist | models/budget.js:22 | a second budget with the owner and category of a stored one, and any limit >= 0, passes validation unchanged and is accepted next to the first |
| Statistics.StatsMap | public/js/transactions.js:69-72 | the last entry's total is the value of its category in the map |
| Statistics.StatsMapKeys | public/js/transactions.js:69-72 | the category map has a key for exactly the categories of the entries |
| Statistics.StatsMapLastWins | public/js/transactions.js:69-72 | for a category listed twice, the later entry's total is the one kept |
| Statistics.CategoryMap | public/js/transactions.js:69-77 | the forEach loop builds exactly the last-write-wins map, with the key and last-wins properties above |
| Statistics.BuildStats | public/js/transactions.js:65-84 | totalIncome and totalExpenses are the sums of totalAmount (0 for an empty list); the two maps come from the loops |
| Statistics.GroupMatchesFold | controllers/transactionController.js:95-107 | the client map built from the server's aggregation equals the commented-out server fold |
| Statistics.DashboardExpenses | public/js/transactions.js:66-77 | the dashboard's expense total and category map agree with the caller's expense records in the window |
| Statistics.ColourFor | public/js/transactions.js:106-110 | red exactly when amount >= limit; orange exactly when amount < limit and amount >= limit / 2; default otherwise |
| Statistics.ColourMonotone | public/js/transactions.js:106-110 | for a non-negative limit, spending more never gives a milder colour |
| Statistics.FirstBudget | public/js/transactions.js:102 | `budgets.find` returns the first budget of the category, or none exists |
| Statistics.CategoryColour | public/js/transactions.js:102-111 | with no budget for the category the colour is the default; otherwise it is the colour against the first such budget |
| Statistics.EarlierBudgetDecides | public/js/transactions.js:102 | of two budgets for the same category, the earlier one decides the colour |
| Statistics.ExpenseColours | public/js/transactions.js:101-113 | every expense category of the map, and only those, gets a colour |
| Statistics.DashboardColour | public/js/transactions.js:101-113 | end to end: a category is red exactly when the caller's spending in it within the window reaches the first budget's limit, and orange exactly when it is below the limit but at least half of it |
| Users.NormaliseEmail | models/user.js:15-16 | normalising an e-mail (trim, then lower-case) never makes it longer |
| Users.NormaliseEmailFacts | models/user.js:15-16 | a normalised e-mail is the trimmed input up to ASCII case and has no upper-case letter, so " A@B.CO " is stored as "a@b.co"; neither end is white space, and normalising it again changes nothing |
| Users.NormaliseEmailEq | models/user.js:14-16 | two e-mails are stored as the same string, and so collide on the unique index, exactly when their trimmed forms agree up to ASCII case |
| Users.MatchesEmailPatternIff | models/user.js:17 | the e-mail test holds exactly when the string has no white space and has the form X@Y.Z with X, Y and Z non-empty (further '@' and '.' allowed) |
| Users.MatchesEmailPattern | models/user.js:17 | a string passing the e-mail test has at least 5 characters |
| Users.ValidFieldsNormalised | models/user.js:5-18 | a valid name is its own trim, non-empty and at most 50 UTF-16 code units; a valid e-mail is its own normal form and matches the pattern |
| Users.SaveableIff | models/user.js:4-23 | `save` accepts a document exactly when the name is its own trim, non-empty and at most 50 code units, the e-mail is its own normal form of the form X@Y.Z, and a modified password has at least 6 code units |
| Users.MatchPasswordExact | models/user.js:48-50 | with a collision-free hash, matchPassword on a stored hash of p accepts exactly p |
| Users.UserDocument.Create | models/user.js:4-37 | a new document has the trimmed name, the trimmed lower-cased e-mail, role user, isActivated false, the given activation link, and its password counts as modified |
| Users.UserDocument.Load | models/user.js:4-37 | a document read from the store holds the stored user, with nothing modified |
| Users.UserDocument.PreSave | models/user.js:40-45 | a modified password is replaced by its hash, so the plain text then matches; an unmodified one is kept, and matchPassword answers as before for every input |
| Common.FirstWhere | controllers/authController.js:21 | the shared first-match search (findOne, findById, the filter of a findOneAnd… call, `Array.prototype.find`) returns the index of the first element satisfying the query, or reports that none does |
| Auth.FindByEmail | controllers/authController.js:21 | `findOne({ email })` finds a user whose e-mail is the normalised query, or none exists |
| Auth.FindById | controllers/authController.js:154 | `findById` finds a user with that id, or none exists |
| Auth.FindByLink | controllers/authController.js:46 | `findOne({ activationLink })` finds a user with that link, or none exists |
| Auth.Draft | controllers/authController.js:159-162 | updateUser overwrites name, e-mail and password only where the body's value is truthy, through the setters; every other field is unchanged |
| Auth.Patched | controllers/authController.js:159-164 | a truthy name becomes its trim and a truthy e-mail its normal form, otherwise they are kept; a supplied password that differs from the stored hash is hashed by the pre-save hook and then matches; any other body password, including the stored hash itself, leaves the hash as it was; id, role, activation state and link are unchanged |
| Auth.StoredUser | models/user.js:14 | every stored user passed validation, and no other user shares its e-mail |
| Auth.AppendPreserves | models/user.js:14 | adding a valid user with a fresh id and an unused e-mail keeps the store invariant |
| Auth.ReplacePreserves | models/user.js:14 | replacing a user by a valid one with the same id and an e-mail no other user has keeps the store invariant |
| Auth.RemovePreserves | models/user.js:14 | removing a user keeps the store invariant |
| Auth.Login | controllers/authController.js:62-89 | 400 for a body the validators reject; 401 exactly when no user with the normalised e-mail has a matching password; 400 exactly when the password matches but the account is inactive; 201 with that user exactly when it matches and the account is active |
| Auth.LoginKnownUser | controllers/authController.js:71-85 | a stored user with the right password gets 201 if activated and 400 otherwise |
| Auth.LinkOfLast | controllers/authController.js:46 | a fresh activation link finds the user just registered with it |
| Auth.LoginAfterRegister | controllers/authController.js:12-85 | right after registration, login with the e-mail string and password used at registration answers 400; after activation it answers 201 |
| Auth.Refresh | controllers/authController.js:117-132 | unauthorized exactly when the token is missing or empty, fails verification, or is not in the token store; otherwise the user the token names, or a missing-user failure when no user has that id |
| Auth.AssignTruthy | controllers/authController.js:160-162 | the document afterwards is the draft of the update, and the password counts as modified exactly when it was before or a truthy password different from the current value was assigned |
| Auth.UserStore.Register | controllers/authController.js:12-40 | 400 exactly when the body is rejected or the e-mail is known, with no user added; 500 with no change when the schema rejects the document; otherwise 200 and exactly one inactive user is appended with trimmed name, normalised e-mail, hashed password and the link; the invariant is kept |
| Auth.UserStore.Activate | controllers/authController.js:42-59 | an unknown link changes nothing (400); otherwise exactly that user's isActivated becomes true (302) and its password hash is kept |
| Auth.UserStore.UpdateUser | controllers/authController.js:148-173 | 404 with no change exactly when the user is unknown; 200 and the user becomes the patched one exactly when the draft passes validation (the password length only when the assignment changed the password) and its e-mail is free; otherwise 500 and no change |
| Auth.UserStore.DeleteUser | controllers/authController.js:176-187 | 404 with no change exactly when the user is unknown; otherwise 200 and exactly that user is removed; only the user store may change, so no transaction or budget is touched |

## Left out

- MongoDB I/O, indexes and the aggregation engine: collections are sequences held in memory. A `save` that fails for a store error (the 500 paths other than validation) is not modelled.
- Floating-point money and `new Date(string)` parsing: amounts and dates are integers.
- Pagination and query filters on the transaction list: the handler ignores the query string, so there is nothing to model.
- Bulk insert, update and delete: the routes name them but the controller does not define them.
- JWT issuance, cookies, bcrypt salts and uuid generation: they become the parameters `hash`, `verify`, `stored` and `link`. generateTokens, saveToken, removeToken and findToken are not part of this model, and neither are the refresh-token TTL and logoutUser.
- Auth.UserStore.Register: the activation mail is not modelled at all. A failure of `sendActivationMail` or `saveToken` after `user.save()` (controllers/authController.js:28-32) answers 500 with the user already stored; the model's 500 covers only the schema rejection, with no change to the store.
- getUser and the auth and role middleware: outside this model.
- The DOM rendering, `toFixed` formatting and fetch calls of the client: only the folds and the colour decision are modelled.
- Common.Lower: only the ASCII letters A-Z are lower-cased; the Unicode case mapping of `toLowerCase` is not modelled.
- Statistics.StatsMap: every category is an ordinary key; the special treatment JavaScript objects give to a key such as `__proto__` is not modelled.
- TransactionQueries.CategoryFold: the same holds for the commented-out `acc[t.category] || 0` fold on `{}`, where a category named `constructor` or `__proto__` would read an inherited value; Statistics.GroupMatchesFold relates the two folds under the same ordinary-key reading.
- TransactionStore.Collection.Update: the description goes through the schema's trim setter and the other body values are stored as given; Mongoose's handling of `undefined` fields and the casting of update values to the schema types are library behaviour.
- Auth.Refresh: refreshUser answers both failures with 500; the model keeps the two apart and leaves out the new tokens.
- Auth.Login: the tokens issued and saved on success are not modelled.
- Auth.FindByEmail: queries use the normalised e-mail, as Mongoose applies the schema's trim and lowercase setters to the query value.
