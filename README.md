# Go-Bank-API: the balance-mutation core in Dafny

This project models the money-moving core of a small Go banking service. It has two parts.

- **Ledger store** (`storage.go`). `PostgresStore` and its `account` table. Each row carries the fields of the `Account` struct: id, first name, last name, password, number, balance and creation time. The store offers point lookups by id and by number, a full listing, account creation, a balance-only update, a name and password update, and deletion.
- **Money operations** (`api.go`). The balance mutator `modifyAccountBalance` and the decision logic of the deposit, withdraw and transfer handlers. The HTTP layer is stripped off.

How the model is built:

- `int64.dfy` holds Go's int64 `+` and `-1 * x`. Both wrap around modulo 2^64, and the model writes that out.
- `types.dfy` holds the records. A table row is a datatype value (`AccountRow`). The handler's in-memory `*Account` is a class (`Account`), because `modifyAccountBalance` changes its `balance` field in place.
- `storage.dfy` holds `PostgresStore` as a class. Its field `rows` is the table in the order the database returns it, and `nextId` is the id serial. Every database call takes a `fails` flag that stands for the driver returning an error. The table operations are specified by functions on the row sequence: `Find`, `SetBalance`, `UpdateFields`, `WithoutId` and `Total`.
- `api.dfy` holds the handlers as methods over the store. Each one is proved equal to a function of the table before the request (`Deposit`, `Withdraw`, `Transfer`). The handlers' properties are lemmas about those functions. The acting account number, the amount and the transfer's destination are plain inputs.

## Where the code and the service's design description differ

The model follows the code in each case.

- The design asks deposits, withdrawals and transfers to refuse amounts that are not positive. The code checks no sign anywhere.
  - A negative deposit takes money out with no sufficiency check.
  - A negative withdrawal adds money (see Findings).
  - A negative transfer pulls money out of the destination (see Findings).
- The design asks for unique account numbers. The `number` column has no unique constraint, and `NewAccount` draws the number at random. `GetAccountByNumber` therefore returns the *first* matching row, and the model keeps the table ordered to say which row that is.
- The design asks that a balance update on a missing id fail. `UpdateAccountBalance` and `DeleteAccount` report no error when no row matches.
- The design asks that a transfer be atomic, or that it refund the debit when the credit fails. The code does neither: a failed credit leaves the debit applied (see Findings).
- The design puts the self-transfer check before the sufficiency check. The code checks sufficiency first, so a self-transfer the balance cannot cover is answered "Insufficient Balance".

## Model

| member | source | states |
|---|---|---|
| `Int64.Add` | api.go:436 | Go's int64 `+`: the exact sum when it fits in int64, otherwise the sum moved back into range by exactly 2^64 (negative on overflow, non-negative on underflow) |
| `Int64.Negate` | api.go:249 | Go's `-1 * x`: the negation, except that the most negative int64 stays itself |
| `Int64.SubtractByNegate` | api.go:249 | adding `-1 * b` equals subtracting `b` whenever the difference fits in int64, including for the most negative `b` |
| `Types.Account.FromRow` | storage.go:204-209 | a scanned row becomes a fresh in-memory account holding exactly that row's columns |
| `Storage.FirstMatch` | storage.go:197-199 | the position of the first row the lookup selects: no row before it matches, and it matches when it is inside the table |
| `Storage.Find` | storage.go:172-202 | a lookup finds nothing exactly when no row matches; otherwise it finds the first matching row of the table |
| `Storage.SetBalance` | storage.go:124-129 | the balance update keeps the table's length; every row with the given id gets the new balance and keeps every other column; every other row is unchanged |
| `Storage.UpdateFields` | storage.go:115-120 | the name and password update keeps the table's length and every row's id, number, balance and creation time; rows with another id are unchanged; in the row with the id, each non-empty field is replaced and each empty one kept |
| `Storage.FindOwnId` | storage.go:172-186 | with unique ids, looking a row up by its own id returns that row |
| `Storage.WithoutId` | storage.go:140-146 | after a delete, a row remains exactly when it was there before and has a different id |
| `Storage.WithoutIdKeepsUniqueIds` | storage.go:140-146 | deleting rows keeps ids unique |
| `Storage.SetBalanceKeepsKeys` | storage.go:124-129 | a balance update keeps the table's length, each row's id and number, and the uniqueness of ids |
| `Storage.FirstMatchAfterSetBalance` | storage.go:124-129 | a balance update does not change which row any lookup by id or number finds |
| `Storage.TotalAfterSetBalance` | storage.go:124-137 | writing a balance to the row with a given id changes the sum of all balances by exactly the new balance minus the old one |
| `Storage.SetBalanceAbsent` | storage.go:124-137 | a balance update on an id no row has leaves the table unchanged, with no error |
| `Storage.Decimal` | storage.go:96 | `%d` of a natural number is a non-empty string of decimal digits, one digit long exactly below 10 |
| `Storage.DecimalInjective` | storage.go:95-109 | different argument positions print as different placeholders |
| `Storage.Join` | storage.go:116 | `strings.Join`: the empty list joins to the empty string; otherwise the result starts with the first element (followed by the separator when there are more) and ends with the last |
| `Storage.Assignments` | storage.go:95-109 | the fields the UPDATE sets: at most three, and none exactly when all three inputs are empty |
| `Storage.AssignmentsSetNonEmptyFieldsInOrder` | storage.go:95-109 | a field is set exactly when it is non-empty, and then with its own value; no column of an empty field appears under any value; there is one assignment per non-empty field; the set fields come in the order first name, last name, password |
| `Storage.SetClauses` | storage.go:95-109 | one clause per set field, and the i-th reads `column = $(i+1)` for the i-th field's column |
| `Storage.SetClausesSnoc` | storage.go:95-109 | appending a field appends its clause, numbered one past the clauses before it, as each `append` with `argID` does |
| `Storage.BuildUpdate` | storage.go:90-118 | fails with "no fields to update" exactly when all three fields are empty; otherwise there is one `column = $i` clause per non-empty field, in the order first_name, last_name, password, numbered `$1..$k`; the WHERE uses `$(k+1)`; the arguments are the k values in clause order followed by the id |
| `Storage.PostgresStore.constructor` | storage.go:57-58 | an empty table whose id serial starts at 1 |
| `Storage.PostgresStore.CreateAccount` | storage.go:72-88 | on success appends one row carrying exactly the account's fields and the next serial id; the in-memory account is not told the id; a failed insert changes nothing |
| `Storage.PostgresStore.UpdateAccount` | storage.go:90-122 | with every field empty: "no fields to update" and no change; otherwise, when the call succeeds, the non-empty fields of the row with the account's id are replaced |
| `Storage.PostgresStore.UpdateAccountBalance` | storage.go:124-138 | on success only the balance of the row whose id is the account's id becomes the in-memory balance; every other field and row is unchanged; an absent id is not an error |
| `Storage.PostgresStore.DeleteAccount` | storage.go:140-146 | on success removes the row with that id and keeps every other row; an absent id is not an error |
| `Storage.PostgresStore.GetAccounts` | storage.go:148-170 | returns one fresh account per stored row, in table order, each holding that row's values |
| `Storage.PostgresStore.GetAccountByID` | storage.go:172-186 | returns the row with that id, or the error "account <id> not found" |
| `Storage.PostgresStore.GetAccountByNumber` | storage.go:188-202 | returns the first row with that number, or the error "account <number> not found" |
| `Storage.PostgresStore.GetAccountBy` | storage.go:172-202 | the shared lookup: a failed query, a fresh account holding the first matching row, or not-found for the key |
| `Api.ModifyAccountBalance` | api.go:435-444 | the in-memory balance becomes old balance plus amount (int64 wrap-around) before the write; on success that balance is stored in the account's row and returned; on a failed write it returns (0, error) and the table is unchanged, while the in-memory balance has still moved |
| `Api.HandleDepositMoney` | api.go:189-223 | the reply and the new table are exactly those of `Deposit` on the table before the request; the id serial is unchanged |
| `Api.HandleWithdrawMoney` | api.go:225-263 | the reply and the new table are exactly those of `Withdraw` on the table before the request; the id serial is unchanged |
| `Api.HandleTransfer` | api.go:265-316 | the reply and the new table are exactly those of `Transfer` on the table before the request; the id serial is unchanged |
| `Api.Deposit` | api.go:189-223 | a deposit is never refused; a failure is the database error or "account <number> not found" and leaves the table as it was; the table keeps its length |
| `Api.Withdraw` | api.go:225-263 | the only refusal is "Insufficient Balance"; a refusal or failure (database error or not-found for the acting number) leaves the table as it was; the table keeps its length |
| `Api.Transfer` | api.go:265-316 | a refusal is "Insufficient Balance" or "same account" and leaves the table as it was; a failure names the database error or one of the two numbers; a failure after which the table differs can only be the failed credit; the table keeps its length |
| `Api.DepositAddsAmount` | api.go:205-222 | a deposit succeeds exactly when the account is found and both database calls succeed, for any amount sign; it reports the acting number, the old balance and old plus amount; it stores that balance in the account's row and no other row changes; the total grows by the amount; every failure leaves the table as it was |
| `Api.DepositZeroKeepsTable` | api.go:205-209 | depositing zero leaves the table unchanged and reports equal old and new balances |
| `Api.WithdrawRefusesOverdraft` | api.go:245-247 | the reply is "Insufficient Balance" exactly when the balance is below the amount; the withdrawal succeeds exactly when the balance covers it and both database calls succeed; any outcome other than success writes nothing |
| `Api.WithdrawDebits` | api.go:249-262 | a successful withdrawal reports the old balance and stores the new one in the account's row alone; whenever old minus amount fits in int64 (negative amounts included), the new balance is old minus amount, it is at least zero, and the total changes by minus the amount |
| `Api.TransferChecksBeforeWriting` | api.go:281-295 | "Insufficient Balance" exactly when the source balance is below the amount; "same account" exactly when the balance covers it and the destination is the source's number; the table changes only if the source and destination were both found, both checks passed and the debit succeeded |
| `Api.TransferConserves` | api.go:297-315 | a successful transfer uses two different rows; the source is debited by the amount, and that new balance is the one reported; the destination is credited by the amount; all other rows are unchanged; without wrap-around, the two balances' sum and the table total are unchanged |
| `Api.TransferCreditFailureKeepsDebit` | api.go:297-307 | when the credit fails after a successful debit, the reply is an error, the source keeps its debit, the destination is unchanged, and the total has lost the amount |
| `Api.TransferNegativeAmountDrainsTarget` | api.go:283-307 | as written, a negative transfer between two existing accounts succeeds and lowers the destination's balance by the amount's size, below zero when the destination held less |
| `Api.WithdrawNegativeAmountCredits` | api.go:245-262 | as written, withdrawing a negative amount from an account with a balance of zero or more succeeds, raises that account's balance by the amount's magnitude and raises the table's total by the same |
| `Api.WithdrawChecked` | api.go:245-249 | the corrected withdrawal succeeds only for a positive amount, and every other outcome leaves the table as it was |
| `Api.WithdrawCheckedKeepsBalancesNonNegative` | api.go:245-249 | with a refusal of amounts at or below zero added, withdrawals keep every balance at zero or more and take exactly the amount |
| `Api.TransferChecked` | api.go:283-307 | the corrected transfer succeeds only for a positive amount, and every other outcome, a failed credit included, leaves the table as it was |
| `Api.TransferCheckedKeepsBalancesNonNegative` | api.go:283-307 | with amounts at or below zero refused and the two writes made atomic, transfers keep every balance at zero or more, provided the credit fits in int64 |
| `Api.TransferCheckedAllOrNothing` | api.go:297-307 | with the two writes made atomic, on any table with unique ids, a transfer either succeeds (only for a positive amount) or leaves the table exactly as it was; a success keeps the total whenever the destination's credit fits in int64 |

## Left out

- HTTP routing, JSON decoding and encoding, `WriteJSON`, `makeHTTPHandlerFunc` and the status codes are left out, because they are I/O. A decoding failure of the request body is not modelled: the handlers start from the parsed amount and destination.
- JWT creation and validation, `withJWTAuth` and `getAccountFromCxt` are left out, because they are library calls. The acting account number is a parameter.
- `NewAccount`, `validatePassword`, `handleLogin` and `handleCreateAccount` are left out, because they use bcrypt, `rand.Intn` and `time.Now`. These are non-deterministic or foreign calls. `CreateAccount` takes the already-built account.
- The thin HTTP wrappers `handleGetAccount`, `handleGetAccountByID` and `handleDeleteAccount` are not modelled separately. Each one only forwards to the store operation that is modelled.
- `NewPostgresStore`, `Init`, `CreateAccountTable` and `main.go` are left out, because they are connection setup, configuration and DDL.
  - The DDL declares `number` and `balance` as `serial`, which is a 32-bit integer. A balance outside that range would be refused by the database. The model covers this only as a possible write failure (`fails`), not as a range check. A withdrawal of the most negative int64, for which `-1 * amount` wraps back to that same value, therefore ends in a refused write and no change, since every wrapped result lies outside the column's range; the lemmas that assume an accepted write do not cover that case.
- Database failures are booleans passed into each call. The model does not say when the database fails.
  - A scan error in the middle of `GetAccounts` is not modelled apart from a failed query.
- `Storage.PostgresStore.UpdateAccount`: the effect of the UPDATE it sends is stated directly with `UpdateFields`. It is not derived by interpreting the SQL text that `BuildUpdate` produces.
- Row order: the queries have no ORDER BY, so the database's order is unspecified. The model fixes it as the order of `rows`, which is insertion order.
- Concurrent requests and lost updates between read and write are left out. The model runs one request at a time.
- Logging (`fmt.Printf`, `log`) is left out, and so is the unclosed result set of `DeleteAccount`.
- `Api.DepositAddsAmount`, `Api.WithdrawDebits`, `Api.TransferConserves` and `Api.TransferCreditFailureKeepsDebit` state the exact arithmetic (old plus or minus amount, conservation of the total) only when the result fits in int64. Beyond that, the stored value is the wrapped one given by `Int64.Add`.
- `Api.TransferCheckedKeepsBalancesNonNegative` assumes the destination's credit does not overflow int64.
- `Api.TransferCheckedAllOrNothing` states the kept total only when the destination's credit fits in int64 (`CreditFits`); beyond that the stored credit is the wrapped value.

## Findings

| source | as written | input that shows it | evidently intended | confidence | as-written member | corrected member |
|---|---|---|---|---|---|---|
| api.go:283-307 | a transfer never checks the amount's sign; for a negative amount the debit adds to the source and the credit subtracts from the destination | source balance 0, destination balance 0, amount -100: reply OK, source ends at 100, destination at -100 | refuse amounts at or below zero, so an account holder cannot pull money out of someone else's account | high, not executed | `Api.TransferNegativeAmountDrainsTarget` | `Api.TransferCheckedKeepsBalancesNonNegative` |
| api.go:245-262 | the sufficiency check `balance < amount` passes for every negative amount, and `-1 * amount` then credits the account: a withdrawal creates money | balance 0, amount -100: reply OK, new balance 100, and the table's total grows by 100 | refuse amounts at or below zero, so a withdrawal only ever takes the amount out | high, not executed | `Api.WithdrawNegativeAmountCredits` | `Api.WithdrawCheckedKeepsBalancesNonNegative` |
| api.go:297-307 | a failed credit after a successful debit returns an error and leaves the debit in place | any transfer whose credit UPDATE fails, e.g. because the destination's new balance is outside the 32-bit column: the source loses the amount and the destination gains nothing | make the two writes one transaction, so a failed credit undoes the debit | high, not executed | `Api.TransferCreditFailureKeepsDebit` | `Api.TransferCheckedAllOrNothing` |
