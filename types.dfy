/** The records of the banking service: an account as the table stores it,
    the in-memory account a request handler works on, the transfer request
    and response bodies, and the error values the store reports. */
module Types {
  import opened Int64

  datatype Option<T> = None | Some(value: T)

  datatype Result<T, E> = Success(value: T) | Failure(error: E)

  /** A creation instant; the clock itself is outside the model. */
  type Timestamp = int

  /** One row of the `account` table, with the fields of the Go `Account`
      struct in column order. */
  datatype AccountRow = AccountRow(
    id: int,
    firstName: string,
    lastName: string,
    password: string,
    number: int64,
    balance: int64,
    createdAt: Timestamp)

  /** The Go `*Account` a handler holds: a heap record whose fields can be
      changed in place, as `modifyAccountBalance` does with `Balance`. */
  class Account {
    var id: int
    var firstName: string
    var lastName: string
    var password: string
    var number: int64
    var balance: int64
    var createdAt: Timestamp

    /** The values this in-memory account would be written as. */
    function Row(): AccountRow
      reads this
    {
      AccountRow(id, firstName, lastName, password, number, balance, createdAt)
    }

    /** A fresh account holding the columns of one scanned row
        (`scanIntoAccount`). */
    constructor FromRow(r: AccountRow)
      ensures Row() == r
    {
      id, firstName, lastName, password := r.id, r.firstName, r.lastName, r.password;
      number, balance, createdAt := r.number, r.balance, r.createdAt;
    }
  }

  /** The parsed body of a transfer request. */
  datatype TransferRequest = TransferRequest(toAccount: int64, amount: int64)

  /** The body returned by a successful deposit, withdrawal or transfer. */
  datatype TransferResponse = TransferResponse(number: int64, oldBalance: int64, newBalance: int64)

  /** What a store operation can fail with: no row for the key, an update
      with nothing to set, or the database call itself failing. */
  datatype StoreError =
    | AccountNotFound(key: int)
    | NoFieldsToUpdate
    | Unavailable
}
