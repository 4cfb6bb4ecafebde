/** The money operations of the API server: the balance mutator and the
    decision logic of the deposit, withdraw and transfer handlers, with the
    HTTP layer stripped. The acting account number, the parsed amount and
    destination are plain inputs, and each database call's failure is an
    input flag. Each handler is a method over the store, proved equal to a
    function of the table before the request; the properties of the
    handlers are lemmas about those functions. */
module Api {
  import opened Int64
  import opened Types
  import opened Storage

  /** The 400 replies the handlers write for a business-rule violation:
      "Insufficient Balance" and "Cannot transfer money to the same
      account". `InvalidAmount` is only produced by the corrected operations
      at the end of this module. */
  datatype Rejection = InsufficientBalance | SameAccount | InvalidAmount

  /** What a handler answers: the response body, a rejection, or the error
      of a failed lookup or write. */
  datatype Reply =
    | Ok(resp: TransferResponse)
    | Rejected(reason: Rejection)
    | Failed(error: StoreError)

  /** A handler's reply together with the table it leaves behind. */
  datatype Outcome = Outcome(reply: Reply, rows: seq<AccountRow>)

  /** Every balance in the table is at least zero. */
  predicate NonNegative(rows: seq<AccountRow>) {
    forall i :: 0 <= i < |rows| ==> rows[i].balance >= 0
  }

  // ---------------------------------------------------------------------
  // The balance mutator

  /** `modifyAccountBalance`: adds the signed amount to the in-memory
      account (wrapping like Go's int64), then writes that balance to the
      account's row. On a failed write the reply is (0, error) while the
      in-memory balance has already moved. */
  method ModifyAccountBalance(store: PostgresStore, acc: Account, amount: int64, writeFails: bool)
    returns (newBalance: int64, err: Option<StoreError>)
    requires store.Valid()
    modifies store, acc
    ensures store.Valid() && store.nextId == old(store.nextId)
    ensures acc.Row() == old(acc.Row()).(balance := Add(old(acc.balance), amount))
    ensures writeFails ==> newBalance == 0 && err == Some(Unavailable) && store.rows == old(store.rows)
    ensures !writeFails ==> newBalance == acc.balance && err == None &&
                            store.rows == SetBalance(old(store.rows), acc.id, acc.balance)
  {
    acc.balance := Add(acc.balance, amount);
    err := store.UpdateAccountBalance(acc, writeFails);
    if err.Some? {
      return 0, err;
    }
    return acc.balance, None;
  }

  // ---------------------------------------------------------------------
  // The handlers as functions of the table

  /** `handleDepositMoney`: look the acting account up and add the amount,
      whatever its sign. */
  function Deposit(rows: seq<AccountRow>, number: int64, amount: int64,
                   lookupFails: bool, writeFails: bool): (r: Outcome)
    ensures !r.reply.Rejected?
    ensures r.reply.Failed? ==>
      r.rows == rows && r.reply.error in {Unavailable, AccountNotFound(number)}
    ensures |r.rows| == |rows|
  {
    if lookupFails then Outcome(Failed(Unavailable), rows)
    else match Find(rows, ByNumber(number))
      case None => Outcome(Failed(AccountNotFound(number)), rows)
      case Some(acc) =>
        var newBalance := Add(acc.balance, amount);
        if writeFails then Outcome(Failed(Unavailable), rows)
        else Outcome(Ok(TransferResponse(number, acc.balance, newBalance)),
                     SetBalance(rows, acc.id, newBalance))
  }

  /** `handleWithdrawMoney`: refuse when the balance is below the amount,
      otherwise add `-1 * amount`. */
  function Withdraw(rows: seq<AccountRow>, number: int64, amount: int64,
                    lookupFails: bool, writeFails: bool): (r: Outcome)
    ensures r.reply.Rejected? ==> r.reply.reason == InsufficientBalance && r.rows == rows
    ensures r.reply.Failed? ==>
      r.rows == rows && r.reply.error in {Unavailable, AccountNotFound(number)}
    ensures |r.rows| == |rows|
  {
    if lookupFails then Outcome(Failed(Unavailable), rows)
    else match Find(rows, ByNumber(number))
      case None => Outcome(Failed(AccountNotFound(number)), rows)
      case Some(acc) =>
        if acc.balance < amount then Outcome(Rejected(InsufficientBalance), rows)
        else
          var newBalance := Add(acc.balance, Negate(amount));
          if writeFails then Outcome(Failed(Unavailable), rows)
          else Outcome(Ok(TransferResponse(number, acc.balance, newBalance)),
                       SetBalance(rows, acc.id, newBalance))
  }

  /** `handleTransfer`: sufficiency, then self-transfer, then the
      destination lookup; then the debit and the credit as two separate
      writes, with nothing undone when the credit fails. */
  function Transfer(rows: seq<AccountRow>, number: int64, req: TransferRequest,
                    sourceLookupFails: bool, targetLookupFails: bool,
                    debitFails: bool, creditFails: bool): (r: Outcome)
    ensures r.reply.Rejected? ==> r.reply.reason != InvalidAmount && r.rows == rows
    ensures r.reply.Failed? ==>
      r.reply.error in {Unavailable, AccountNotFound(number), AccountNotFound(req.toAccount)}
    ensures r.reply.Failed? && r.rows != rows ==> r.reply.error == Unavailable && creditFails
    ensures |r.rows| == |rows|
  {
    if sourceLookupFails then Outcome(Failed(Unavailable), rows)
    else match Find(rows, ByNumber(number))
      case None => Outcome(Failed(AccountNotFound(number)), rows)
      case Some(from) =>
        if from.balance < req.amount then Outcome(Rejected(InsufficientBalance), rows)
        else if from.number == req.toAccount then Outcome(Rejected(SameAccount), rows)
        else if targetLookupFails then Outcome(Failed(Unavailable), rows)
        else match Find(rows, ByNumber(req.toAccount))
          case None => Outcome(Failed(AccountNotFound(req.toAccount)), rows)
          case Some(to) =>
            var debited := Add(from.balance, Negate(req.amount));
            if debitFails then Outcome(Failed(Unavailable), rows)
            else
              var afterDebit := SetBalance(rows, from.id, debited);
              if creditFails then Outcome(Failed(Unavailable), afterDebit)
              else Outcome(Ok(TransferResponse(from.number, from.balance, debited)),
                           SetBalance(afterDebit, to.id, Add(to.balance, req.amount)))
  }

  // ---------------------------------------------------------------------
  // The handlers over the store

  method HandleDepositMoney(store: PostgresStore, number: int64, amount: int64,
                            lookupFails: bool, writeFails: bool) returns (reply: Reply)
    requires store.Valid()
    modifies store
    ensures store.Valid() && store.nextId == old(store.nextId)
    ensures Outcome(reply, store.rows) == Deposit(old(store.rows), number, amount, lookupFails, writeFails)
  {
    var found := store.GetAccountByNumber(number, lookupFails);
    if found.Failure? {
      return Failed(found.error);
    }
    var acc := found.value;
    var oldBalance := acc.balance;
    var newBalance, err := ModifyAccountBalance(store, acc, amount, writeFails);
    if err.Some? {
      return Failed(err.value);
    }
    return Ok(TransferResponse(number, oldBalance, newBalance));
  }

  method HandleWithdrawMoney(store: PostgresStore, number: int64, amount: int64,
                             lookupFails: bool, writeFails: bool) returns (reply: Reply)
    requires store.Valid()
    modifies store
    ensures store.Valid() && store.nextId == old(store.nextId)
    ensures Outcome(reply, store.rows) == Withdraw(old(store.rows), number, amount, lookupFails, writeFails)
  {
    var found := store.GetAccountByNumber(number, lookupFails);
    if found.Failure? {
      return Failed(found.error);
    }
    var acc := found.value;
    var oldBalance := acc.balance;
    if oldBalance < amount {
      return Rejected(InsufficientBalance);
    }
    var newBalance, err := ModifyAccountBalance(store, acc, Negate(amount), writeFails);
    if err.Some? {
      return Failed(err.value);
    }
    return Ok(TransferResponse(number, oldBalance, newBalance));
  }

  method HandleTransfer(store: PostgresStore, number: int64, req: TransferRequest,
                        sourceLookupFails: bool, targetLookupFails: bool,
                        debitFails: bool, creditFails: bool) returns (reply: Reply)
    requires store.Valid()
    modifies store
    ensures store.Valid() && store.nextId == old(store.nextId)
    ensures Outcome(reply, store.rows) ==
      Transfer(old(store.rows), number, req, sourceLookupFails, targetLookupFails, debitFails, creditFails)
  {
    var source := store.GetAccountByNumber(number, sourceLookupFails);
    if source.Failure? {
      return Failed(source.error);
    }
    var fromAccount := source.value;
    var oldBalance := fromAccount.balance;
    if fromAccount.balance < req.amount {
      return Rejected(InsufficientBalance);
    }
    if fromAccount.number == req.toAccount {
      return Rejected(SameAccount);
    }
    var target := store.GetAccountByNumber(req.toAccount, targetLookupFails);
    if target.Failure? {
      return Failed(target.error);
    }
    var toAccount := target.value;
    var newBalance, err := ModifyAccountBalance(store, fromAccount, Negate(req.amount), debitFails);
    if err.Some? {
      return Failed(err.value);
    }
    var _, creditErr := ModifyAccountBalance(store, toAccount, req.amount, creditFails);
    if creditErr.Some? {
      return Failed(creditErr.value);
    }
    return Ok(TransferResponse(fromAccount.number, oldBalance, newBalance));
  }

  // ---------------------------------------------------------------------
  // What the handlers promise

  /** A deposit succeeds exactly when the account is found and both
      database calls go through, whatever the amount's sign; it then
      reports the old balance and the old balance plus the amount, stores
      that balance in the acting account's row and touches no other row.
      Every other outcome leaves the table as it was. */
  lemma DepositAddsAmount(rows: seq<AccountRow>, number: int64, amount: int64,
                          lookupFails: bool, writeFails: bool)
    requires UniqueIds(rows)
    ensures var out := Deposit(rows, number, amount, lookupFails, writeFails);
      var found := Find(rows, ByNumber(number));
      (out.reply.Ok? <==> !lookupFails && !writeFails && found.Some?) &&
      (!out.reply.Ok? ==> out.rows == rows) &&
      (out.reply.Ok? ==>
        out.reply.resp.number == number &&
        out.reply.resp.oldBalance == found.value.balance &&
        (InRange(found.value.balance + amount) ==>
          out.reply.resp.newBalance == found.value.balance + amount) &&
        Find(out.rows, ByNumber(number)) == Some(found.value.(balance := out.reply.resp.newBalance)) &&
        |out.rows| == |rows| &&
        (forall i :: 0 <= i < |rows| && rows[i].id != found.value.id ==> out.rows[i] == rows[i]) &&
        (InRange(found.value.balance + amount) ==> Total(out.rows) == Total(rows) + amount))
  {
    var found := Find(rows, ByNumber(number));
    if !lookupFails && !writeFails && found.Some? {
      var newBalance := Add(found.value.balance, amount);
      FirstMatchAfterSetBalance(rows, found.value.id, newBalance, ByNumber(number));
      TotalAfterSetBalance(rows, found.value.id, newBalance, FirstMatch(rows, ByNumber(number)));
    }
  }

  /** Depositing zero re-reads the balance and writes it back: the reply
      carries the same old and new balance and the table is unchanged. */
  lemma DepositZeroKeepsTable(rows: seq<AccountRow>, number: int64, lookupFails: bool, writeFails: bool)
    requires UniqueIds(rows)
    ensures var out := Deposit(rows, number, 0, lookupFails, writeFails);
      out.rows == rows &&
      (out.reply.Ok? ==> out.reply.resp.newBalance == out.reply.resp.oldBalance)
  {
    var found := Find(rows, ByNumber(number));
    if !lookupFails && !writeFails && found.Some? {
      var k := FirstMatch(rows, ByNumber(number));
      var after := SetBalance(rows, found.value.id, found.value.balance);
      forall i | 0 <= i < |rows| ensures after[i] == rows[i] {
        if rows[i].id == found.value.id {
          assert i == k;
        }
      }
    }
  }

  /** A withdrawal is refused with "Insufficient Balance" exactly when the
      account's balance is below the amount, and then writes nothing; it
      succeeds exactly when the balance covers the amount and both database
      calls go through. */
  lemma WithdrawRefusesOverdraft(rows: seq<AccountRow>, number: int64, amount: int64,
                                 lookupFails: bool, writeFails: bool)
    ensures var out := Withdraw(rows, number, amount, lookupFails, writeFails);
      var found := Find(rows, ByNumber(number));
      (out.reply == Rejected(InsufficientBalance) <==>
        !lookupFails && found.Some? && found.value.balance < amount) &&
      (out.reply.Ok? <==> !lookupFails && !writeFails && found.Some? && found.value.balance >= amount) &&
      (!out.reply.Ok? ==> out.rows == rows)
  {
  }

  /** A successful withdrawal reports the old balance, stores the new one in
      the acting account's row and touches no other row; for a
      difference that fits in int64 (negative amounts included) the new
      balance is the old one minus the amount, never below zero, and the
      table's total changes by minus the amount. */
  lemma WithdrawDebits(rows: seq<AccountRow>, number: int64, amount: int64,
                       lookupFails: bool, writeFails: bool)
    requires UniqueIds(rows)
    ensures var out := Withdraw(rows, number, amount, lookupFails, writeFails);
      var found := Find(rows, ByNumber(number));
      out.reply.Ok? ==>
        found.Some? &&
        out.reply.resp.number == number &&
        out.reply.resp.oldBalance == found.value.balance &&
        Find(out.rows, ByNumber(number)) == Some(found.value.(balance := out.reply.resp.newBalance)) &&
        |out.rows| == |rows| &&
        (forall i :: 0 <= i < |rows| && rows[i].id != found.value.id ==> out.rows[i] == rows[i]) &&
        (InRange(found.value.balance - amount) ==>
          out.reply.resp.newBalance == out.reply.resp.oldBalance - amount &&
          out.reply.resp.newBalance >= 0 &&
          Total(out.rows) == Total(rows) - amount)
  {
    var out := Withdraw(rows, number, amount, lookupFails, writeFails);
    var found := Find(rows, ByNumber(number));
    if out.reply.Ok? {
      var newBalance := Add(found.value.balance, Negate(amount));
      FirstMatchAfterSetBalance(rows, found.value.id, newBalance, ByNumber(number));
      TotalAfterSetBalance(rows, found.value.id, newBalance, FirstMatch(rows, ByNumber(number)));
      if InRange(found.value.balance - amount) {
        SubtractByNegate(found.value.balance, amount);
      }
    }
  }

  /** A transfer checks sufficiency first, then self-transfer: each refusal
      happens exactly under its condition, in that order, and no refusal,
      failed lookup or failed debit changes the table. */
  lemma TransferChecksBeforeWriting(rows: seq<AccountRow>, number: int64, req: TransferRequest,
                                    sourceLookupFails: bool, targetLookupFails: bool,
                                    debitFails: bool, creditFails: bool)
    ensures var out := Transfer(rows, number, req, sourceLookupFails, targetLookupFails, debitFails, creditFails);
      var source := Find(rows, ByNumber(number));
      (out.reply == Rejected(InsufficientBalance) <==>
        !sourceLookupFails && source.Some? && source.value.balance < req.amount) &&
      (out.reply == Rejected(SameAccount) <==>
        !sourceLookupFails && source.Some? && source.value.balance >= req.amount && number == req.toAccount) &&
      (out.reply == Failed(AccountNotFound(req.toAccount)) && number != req.toAccount ==>
        Find(rows, ByNumber(req.toAccount)).None?) &&
      (out.rows != rows ==>
        !sourceLookupFails && !targetLookupFails && !debitFails &&
        source.Some? && source.value.balance >= req.amount && number != req.toAccount &&
        Find(rows, ByNumber(req.toAccount)).Some?)
  {
  }

  /** A successful transfer involves two different rows: the source's
      balance goes down by the amount and is reported as the new balance,
      the destination's goes up by the amount, nothing else changes, and
      (when neither side wraps around) the sum of the two balances and the
      table's total are conserved. */
  lemma TransferConserves(rows: seq<AccountRow>, number: int64, req: TransferRequest,
                          sourceLookupFails: bool, targetLookupFails: bool,
                          debitFails: bool, creditFails: bool)
    requires UniqueIds(rows)
    ensures var out := Transfer(rows, number, req, sourceLookupFails, targetLookupFails, debitFails, creditFails);
      out.reply.Ok? ==>
        Find(rows, ByNumber(number)).Some? && Find(rows, ByNumber(req.toAccount)).Some? &&
        var src := Find(rows, ByNumber(number)).value;
        var dst := Find(rows, ByNumber(req.toAccount)).value;
        var credited := Add(dst.balance, req.amount);
        src.id != dst.id &&
        out.reply.resp.number == number &&
        out.reply.resp.oldBalance == src.balance &&
        Find(out.rows, ById(src.id)) == Some(src.(balance := out.reply.resp.newBalance)) &&
        Find(out.rows, ById(dst.id)) == Some(dst.(balance := credited)) &&
        |out.rows| == |rows| &&
        (forall i :: 0 <= i < |rows| && rows[i].id != src.id && rows[i].id != dst.id ==>
          out.rows[i] == rows[i]) &&
        (InRange(src.balance - req.amount) && InRange(dst.balance + req.amount) ==>
          out.reply.resp.newBalance == src.balance - req.amount &&
          out.reply.resp.newBalance + credited == src.balance + dst.balance &&
          Total(out.rows) == Total(rows))
  {
    var out := Transfer(rows, number, req, sourceLookupFails, targetLookupFails, debitFails, creditFails);
    if out.reply.Ok? {
      var src := Find(rows, ByNumber(number)).value;
      var dst := Find(rows, ByNumber(req.toAccount)).value;
      var ks, kd := FirstMatch(rows, ByNumber(number)), FirstMatch(rows, ByNumber(req.toAccount));
      var debited, credited := Add(src.balance, Negate(req.amount)), Add(dst.balance, req.amount);
      var afterDebit := SetBalance(rows, src.id, debited);
      SetBalanceKeepsKeys(rows, src.id, debited);
      TotalAfterSetBalance(rows, src.id, debited, ks);
      assert afterDebit[kd] == dst;
      SetBalanceKeepsKeys(afterDebit, dst.id, credited);
      TotalAfterSetBalance(afterDebit, dst.id, credited, kd);
      FindOwnId(out.rows, ks);
      FindOwnId(out.rows, kd);
      if InRange(src.balance - req.amount) {
        SubtractByNegate(src.balance, req.amount);
      }
    }
  }

  /** When the debit goes through and the credit fails, the reply is an
      error but the source keeps its debit, the destination is untouched
      and the table's total has lost the amount: nothing refunds it. */
  lemma TransferCreditFailureKeepsDebit(rows: seq<AccountRow>, number: int64, req: TransferRequest)
    requires UniqueIds(rows)
    requires Find(rows, ByNumber(number)).Some? && Find(rows, ByNumber(req.toAccount)).Some?
    requires Find(rows, ByNumber(number)).value.balance >= req.amount && number != req.toAccount
    ensures var out := Transfer(rows, number, req, false, false, false, true);
      var src := Find(rows, ByNumber(number)).value;
      var dst := Find(rows, ByNumber(req.toAccount)).value;
      out.reply == Failed(Unavailable) &&
      Find(out.rows, ById(src.id)) == Some(src.(balance := Add(src.balance, Negate(req.amount)))) &&
      Find(out.rows, ById(dst.id)) == Some(dst) &&
      (InRange(src.balance - req.amount) ==> Total(out.rows) == Total(rows) - req.amount)
  {
    var src := Find(rows, ByNumber(number)).value;
    var dst := Find(rows, ByNumber(req.toAccount)).value;
    var ks, kd := FirstMatch(rows, ByNumber(number)), FirstMatch(rows, ByNumber(req.toAccount));
    var debited := Add(src.balance, Negate(req.amount));
    var afterDebit := SetBalance(rows, src.id, debited);
    SetBalanceKeepsKeys(rows, src.id, debited);
    TotalAfterSetBalance(rows, src.id, debited, ks);
    FindOwnId(afterDebit, ks);
    FindOwnId(afterDebit, kd);
    if InRange(src.balance - req.amount) {
      SubtractByNegate(src.balance, req.amount);
    }
  }

  // ---------------------------------------------------------------------
  // Findings: the handlers as written, and the evidently intended ones

  /** As written, a transfer of a negative amount passes every check and
      moves money from the destination to the acting account: the
      destination's balance drops, below zero when it held less than the
      amount's magnitude. */
  lemma TransferNegativeAmountDrainsTarget(rows: seq<AccountRow>, number: int64, req: TransferRequest)
    requires UniqueIds(rows) && NonNegative(rows)
    requires Find(rows, ByNumber(number)).Some? && Find(rows, ByNumber(req.toAccount)).Some?
    requires number != req.toAccount && req.amount < 0
    ensures var out := Transfer(rows, number, req, false, false, false, false);
      var dst := Find(rows, ByNumber(req.toAccount)).value;
      out.reply.Ok? &&
      Find(out.rows, ById(dst.id)).Some? &&
      Find(out.rows, ById(dst.id)).value.balance == dst.balance + req.amount < dst.balance &&
      (dst.balance + req.amount < 0 ==> Find(out.rows, ById(dst.id)).value.balance < 0)
  {
    TransferConserves(rows, number, req, false, false, false, false);
  }

  /** As written, withdrawing a negative amount from an account with a
      balance of zero or more passes the sufficiency check and credits the
      account: its balance and the table's total grow by the amount's
      magnitude. */
  lemma WithdrawNegativeAmountCredits(rows: seq<AccountRow>, number: int64, amount: int64)
    requires UniqueIds(rows) && NonNegative(rows)
    requires Find(rows, ByNumber(number)).Some? && amount < 0
    requires InRange(Find(rows, ByNumber(number)).value.balance - amount)
    ensures var out := Withdraw(rows, number, amount, false, false);
      out.reply.Ok? &&
      out.reply.resp.newBalance == out.reply.resp.oldBalance - amount > out.reply.resp.oldBalance &&
      Find(out.rows, ByNumber(number)).Some? &&
      Find(out.rows, ByNumber(number)).value.balance == out.reply.resp.newBalance &&
      Total(out.rows) == Total(rows) - amount > Total(rows)
  {
    WithdrawDebits(rows, number, amount, false, false);
  }

  /** Withdrawal as evidently intended: a non-positive amount is refused
      before anything else. */
  function WithdrawChecked(rows: seq<AccountRow>, number: int64, amount: int64,
                           lookupFails: bool, writeFails: bool): (r: Outcome)
    ensures r.reply.Ok? ==> amount > 0
    ensures !r.reply.Ok? ==> r.rows == rows
  {
    if amount <= 0 then Outcome(Rejected(InvalidAmount), rows)
    else Withdraw(rows, number, amount, lookupFails, writeFails)
  }

  /** With the amount check, no withdrawal can make a balance negative:
      a table of non-negative balances stays one, and a successful
      withdrawal takes exactly the amount. */
  lemma WithdrawCheckedKeepsBalancesNonNegative(rows: seq<AccountRow>, number: int64, amount: int64,
                                                lookupFails: bool, writeFails: bool)
    requires UniqueIds(rows) && NonNegative(rows)
    ensures var out := WithdrawChecked(rows, number, amount, lookupFails, writeFails);
      NonNegative(out.rows) &&
      (amount <= 0 ==> out.reply == Rejected(InvalidAmount)) &&
      (out.reply.Ok? ==>
        out.reply.resp.newBalance == out.reply.resp.oldBalance - amount &&
        Total(out.rows) == Total(rows) - amount)
  {
    if amount > 0 {
      WithdrawDebits(rows, number, amount, lookupFails, writeFails);
    }
  }

  /** The destination's balance plus the amount fits in an int64. */
  predicate CreditFits(rows: seq<AccountRow>, req: TransferRequest) {
    forall i :: 0 <= i < |rows| && rows[i].number == req.toAccount ==> rows[i].balance + req.amount <= Max
  }

  /** Transfer as evidently intended: a non-positive amount is refused,
      and the two writes form one transaction, so a failed credit undoes
      the debit. */
  function TransferChecked(rows: seq<AccountRow>, number: int64, req: TransferRequest,
                           sourceLookupFails: bool, targetLookupFails: bool,
                           debitFails: bool, creditFails: bool): (r: Outcome)
    ensures r.reply.Ok? ==> req.amount > 0
    ensures !r.reply.Ok? ==> r.rows == rows
  {
    if req.amount <= 0 then Outcome(Rejected(InvalidAmount), rows)
    else
      var out := Transfer(rows, number, req, sourceLookupFails, targetLookupFails, debitFails, creditFails);
      if out.reply.Ok? then out else Outcome(out.reply, rows)
  }

  /** With the amount check, a transfer keeps every balance non-negative
      (as long as the credit does not overflow int64). */
  lemma TransferCheckedKeepsBalancesNonNegative(rows: seq<AccountRow>, number: int64, req: TransferRequest,
                                                sourceLookupFails: bool, targetLookupFails: bool,
                                                debitFails: bool, creditFails: bool)
    requires UniqueIds(rows) && NonNegative(rows) && CreditFits(rows, req)
    ensures var out := TransferChecked(rows, number, req, sourceLookupFails, targetLookupFails,
                                       debitFails, creditFails);
      NonNegative(out.rows) &&
      (req.amount <= 0 ==> out.reply == Rejected(InvalidAmount))
  {
    var out := TransferChecked(rows, number, req, sourceLookupFails, targetLookupFails, debitFails, creditFails);
    if out.reply.Ok? {
      var src := Find(rows, ByNumber(number)).value;
      var dst := Find(rows, ByNumber(req.toAccount)).value;
      SubtractByNegate(src.balance, req.amount);
      assert dst.balance + req.amount <= Max;
      var debited := Add(src.balance, Negate(req.amount));
      var afterDebit := SetBalance(rows, src.id, debited);
      assert NonNegative(afterDebit);
    }
  }

  /** With the transaction, a transfer either applies both writes, keeping
      the table's total, or leaves the table exactly as it was. */
  lemma TransferCheckedAllOrNothing(rows: seq<AccountRow>, number: int64, req: TransferRequest,
                                    sourceLookupFails: bool, targetLookupFails: bool,
                                    debitFails: bool, creditFails: bool)
    requires UniqueIds(rows)
    ensures var out := TransferChecked(rows, number, req, sourceLookupFails, targetLookupFails,
                                       debitFails, creditFails);
      (!out.reply.Ok? ==> out.rows == rows) &&
      (out.reply.Ok? ==> req.amount > 0) &&
      (out.reply.Ok? && CreditFits(rows, req) ==> Total(out.rows) == Total(rows))
  {
    var out := TransferChecked(rows, number, req, sourceLookupFails, targetLookupFails, debitFails, creditFails);
    if out.reply.Ok? && CreditFits(rows, req) {
      TransferConserves(rows, number, req, sourceLookupFails, targetLookupFails, debitFails, creditFails);
      var dst := Find(rows, ByNumber(req.toAccount)).value;
      assert dst.balance + req.amount <= Max;
    }
  }
}
