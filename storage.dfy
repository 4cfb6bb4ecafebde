/** The ledger store: the `account` table as a sequence of rows in the order
    the database returns them, the lookups, writes and deletions the
    service issues against it, and the SET-clause builder of
    `UpdateAccount`. Every database call takes a `fails` flag standing for
    the driver returning an error. */
module Storage {
  import opened Int64
  import opened Types

  // ---------------------------------------------------------------------
  // The table as a value

  /** The column a point lookup filters on. */
  datatype Key = ById(id: int) | ByNumber(number: int64)
  {
    /** The value printed in the "account %d not found" error. */
    function Value(): int {
      match this
      case ById(id) => id
      case ByNumber(n) => n
    }
  }

  predicate Matches(r: AccountRow, key: Key) {
    match key
    case ById(id) => r.id == id
    case ByNumber(n) => r.number == n
  }

  /** `id` is the serial primary key: no two rows share it. */
  ghost predicate UniqueIds(rows: seq<AccountRow>) {
    forall i, j :: 0 <= i < j < |rows| ==> rows[i].id != rows[j].id
  }

  /** The position of the first row the WHERE clause selects, or |rows|. */
  function FirstMatch(rows: seq<AccountRow>, key: Key): (k: nat)
    ensures k <= |rows|
    ensures forall j :: 0 <= j < k ==> !Matches(rows[j], key)
    ensures k < |rows| ==> Matches(rows[k], key)
  {
    if rows == [] then 0
    else if Matches(rows[0], key) then 0
    else 1 + FirstMatch(rows[1..], key)
  }

  /** The row a `select ... where` followed by one `rows.Next()` yields. */
  function Find(rows: seq<AccountRow>, key: Key): (r: Option<AccountRow>)
    ensures r.None? <==> forall j :: 0 <= j < |rows| ==> !Matches(rows[j], key)
    ensures r.Some? ==> Matches(r.value, key) && r.value in rows
    ensures r.Some? ==> r.value == rows[FirstMatch(rows, key)]
  {
    var k := FirstMatch(rows, key);
    if k < |rows| then Some(rows[k]) else None
  }

  /** With unique ids, looking a row up by its own id finds that row. */
  lemma FindOwnId(rows: seq<AccountRow>, k: nat)
    requires UniqueIds(rows) && k < |rows|
    ensures Find(rows, ById(rows[k].id)) == Some(rows[k])
  {
    var f := FirstMatch(rows, ById(rows[k].id));
    assert f <= k;
  }

  /** `update account set balance = $1 where id = $2`. */
  function SetBalance(rows: seq<AccountRow>, id: int, balance: int64): (r: seq<AccountRow>)
    ensures |r| == |rows|
    ensures forall i :: 0 <= i < |rows| ==>
      r[i].(balance := rows[i].balance) == rows[i] &&
      (rows[i].id == id ==> r[i].balance == balance) &&
      (rows[i].id != id ==> r[i] == rows[i])
  {
    seq(|rows|, i requires 0 <= i < |rows| =>
      if rows[i].id == id then rows[i].(balance := balance) else rows[i])
  }

  /** The row with the given id, with its non-empty name and password
      fields replaced (the UPDATE that `UpdateAccount` issues). */
  function UpdateFields(rows: seq<AccountRow>, id: int, firstName: string, lastName: string,
                        password: string): (r: seq<AccountRow>)
    ensures |r| == |rows|
    ensures forall i :: 0 <= i < |rows| ==>
      r[i].id == rows[i].id && r[i].number == rows[i].number &&
      r[i].balance == rows[i].balance && r[i].createdAt == rows[i].createdAt &&
      (rows[i].id != id ==> r[i] == rows[i]) &&
      (rows[i].id == id ==>
        (firstName != "" ==> r[i].firstName == firstName) &&
        (lastName != "" ==> r[i].lastName == lastName) &&
        (password != "" ==> r[i].password == password))
    ensures forall i :: 0 <= i < |rows| ==>
      (firstName == "" ==> r[i].firstName == rows[i].firstName) &&
      (lastName == "" ==> r[i].lastName == rows[i].lastName) &&
      (password == "" ==> r[i].password == rows[i].password)
  {
    seq(|rows|, i requires 0 <= i < |rows| =>
      if rows[i].id == id then
        rows[i].(firstName := if firstName != "" then firstName else rows[i].firstName,
                 lastName := if lastName != "" then lastName else rows[i].lastName,
                 password := if password != "" then password else rows[i].password)
      else rows[i])
  }

  /** `delete from account where id = $1`. */
  function WithoutId(rows: seq<AccountRow>, id: int): (r: seq<AccountRow>)
    ensures forall x :: x in r <==> x in rows && x.id != id
    ensures |r| <= |rows|
  {
    if rows == [] then []
    else if rows[0].id == id then WithoutId(rows[1..], id)
    else [rows[0]] + WithoutId(rows[1..], id)
  }

  /** Deleting rows keeps the ids unique. */
  lemma {:induction false} WithoutIdKeepsUniqueIds(rows: seq<AccountRow>, id: int)
    requires UniqueIds(rows)
    ensures UniqueIds(WithoutId(rows, id))
  {
    if rows != [] {
      assert UniqueIds(rows[1..]) by {
        forall i, j | 0 <= i < j < |rows[1..]| ensures rows[1..][i].id != rows[1..][j].id {
          assert rows[1..][i] == rows[i + 1] && rows[1..][j] == rows[j + 1];
        }
      }
      WithoutIdKeepsUniqueIds(rows[1..], id);
      var rest := WithoutId(rows[1..], id);
      forall x | x in rest ensures x.id != rows[0].id {
        var j :| 0 <= j < |rows[1..]| && rows[1..][j] == x;
        assert rows[j + 1] == x;
      }
    }
  }

  /** The money held in the table: the sum of all balances, as a
      mathematical integer. */
  function Total(rows: seq<AccountRow>): int {
    if rows == [] then 0 else rows[0].balance + Total(rows[1..])
  }

  /** Balance updates change neither ids nor numbers. */
  lemma SetBalanceKeepsKeys(rows: seq<AccountRow>, id: int, balance: int64)
    ensures |SetBalance(rows, id, balance)| == |rows|
    ensures forall i :: 0 <= i < |rows| ==>
      SetBalance(rows, id, balance)[i].id == rows[i].id &&
      SetBalance(rows, id, balance)[i].number == rows[i].number
    ensures UniqueIds(rows) ==> UniqueIds(SetBalance(rows, id, balance))
  {
  }

  /** Since numbers and ids do not change, a balance update does not move
      the row any lookup finds. */
  lemma FirstMatchAfterSetBalance(rows: seq<AccountRow>, id: int, balance: int64, key: Key)
    ensures FirstMatch(SetBalance(rows, id, balance), key) == FirstMatch(rows, key)
  {
    var r := SetBalance(rows, id, balance);
    SetBalanceKeepsKeys(rows, id, balance);
    assert forall j :: 0 <= j < |rows| ==> (Matches(r[j], key) <==> Matches(rows[j], key));
    var a, c := FirstMatch(rows, key), FirstMatch(r, key);
    assert a < |rows| ==> Matches(r[a], key);
    assert c < |rows| ==> Matches(rows[c], key);
  }

  /** Writing the balance of the row with a given id changes the total by
      exactly the difference between the new and the old balance. */
  lemma {:induction false} TotalAfterSetBalance(rows: seq<AccountRow>, id: int, balance: int64, k: nat)
    requires UniqueIds(rows) && k < |rows| && rows[k].id == id
    ensures Total(SetBalance(rows, id, balance)) == Total(rows) - rows[k].balance + balance
  {
    var r := SetBalance(rows, id, balance);
    assert r[1..] == SetBalance(rows[1..], id, balance);
    if k == 0 {
      assert forall j :: 0 <= j < |rows[1..]| ==> rows[1..][j].id != id by {
        forall j | 0 <= j < |rows[1..]| ensures rows[1..][j].id != id {
          assert rows[1..][j] == rows[j + 1];
        }
      }
      SetBalanceAbsent(rows[1..], id, balance);
    } else {
      assert UniqueIds(rows[1..]) by {
        forall i, j | 0 <= i < j < |rows[1..]| ensures rows[1..][i].id != rows[1..][j].id {
          assert rows[1..][i] == rows[i + 1] && rows[1..][j] == rows[j + 1];
        }
      }
      TotalAfterSetBalance(rows[1..], id, balance, k - 1);
    }
  }

  /** Writing to an id that no row has changes nothing. */
  lemma SetBalanceAbsent(rows: seq<AccountRow>, id: int, balance: int64)
    requires forall j :: 0 <= j < |rows| ==> rows[j].id != id
    ensures SetBalance(rows, id, balance) == rows
  {
  }

  // ---------------------------------------------------------------------
  // The SET clause of UpdateAccount

  /** A character for one decimal digit. */
  function Digit(d: nat): (c: char)
    requires d < 10
    ensures '0' <= c <= '9'
  {
    (48 + d) as char
  }

  /** `%d` of a non-negative number: its decimal digits, most significant
      first, without leading zeros. */
  function Decimal(n: nat): (s: string)
    ensures |s| >= 1
    ensures forall i :: 0 <= i < |s| ==> '0' <= s[i] <= '9'
    ensures n < 10 <==> |s| == 1
  {
    if n < 10 then [Digit(n)] else Decimal(n / 10) + [Digit(n % 10)]
  }

  /** Different numbers print differently, so distinct argument positions
      get distinct placeholders. */
  lemma {:induction false} DecimalInjective(m: nat, n: nat)
    requires Decimal(m) == Decimal(n)
    ensures m == n
  {
    if m < 10 || n < 10 {
      assert Decimal(m)[0] == Decimal(n)[0];
    } else {
      var s := Decimal(m);
      assert Decimal(m / 10) == s[..|s| - 1];
      assert Decimal(n / 10) == s[..|s| - 1];
      DecimalInjective(m / 10, n / 10);
      assert Digit(m % 10) == s[|s| - 1] == Digit(n % 10);
    }
  }

  /** `strings.Join`. */
  function Join(xs: seq<string>, sep: string): (r: string)
    ensures |xs| == 0 ==> r == ""
    ensures |xs| > 0 ==> xs[0] <= r
    ensures |xs| > 0 ==> |xs[|xs| - 1]| <= |r| && r[|r| - |xs[|xs| - 1]|..] == xs[|xs| - 1]
    ensures |xs| > 1 ==> xs[0] + sep <= r
  {
    if |xs| == 0 then ""
    else if |xs| == 1 then xs[0]
    else xs[0] + sep + Join(xs[1..], sep)
  }

  datatype Column = FirstNameColumn | LastNameColumn | PasswordColumn
  {
    function Name(): string {
      match this
      case FirstNameColumn => "first_name"
      case LastNameColumn => "last_name"
      case PasswordColumn => "password"
    }

    /** The column's place in the order `UpdateAccount` tests the fields. */
    function Position(): nat {
      match this
      case FirstNameColumn => 0
      case LastNameColumn => 1
      case PasswordColumn => 2
    }
  }

  /** One `column = value` pair of an UPDATE. */
  datatype Assignment = Assignment(column: Column, value: string)

  /** The fields `UpdateAccount` sets: the non-empty ones, in the order
      first name, last name, password. */
  function Assignments(firstName: string, lastName: string, password: string): (r: seq<Assignment>)
    ensures |r| <= 3
    ensures r == [] <==> firstName == "" && lastName == "" && password == ""
  {
    (if firstName != "" then [Assignment(FirstNameColumn, firstName)] else []) +
    (if lastName != "" then [Assignment(LastNameColumn, lastName)] else []) +
    (if password != "" then [Assignment(PasswordColumn, password)] else [])
  }

  /** Exactly the non-empty fields are set, each at most once, in the
      order first name, last name, password. */
  lemma AssignmentsSetNonEmptyFieldsInOrder(firstName: string, lastName: string, password: string)
    ensures var r := Assignments(firstName, lastName, password);
      (firstName != "" <==> Assignment(FirstNameColumn, firstName) in r) &&
      (lastName != "" <==> Assignment(LastNameColumn, lastName) in r) &&
      (password != "" <==> Assignment(PasswordColumn, password) in r) &&
      (forall i :: 0 <= i < |r| ==> r[i].value != "") &&
      (forall i :: 0 <= i < |r| ==>
        (r[i].column == FirstNameColumn ==> r[i].value == firstName) &&
        (r[i].column == LastNameColumn ==> r[i].value == lastName) &&
        (r[i].column == PasswordColumn ==> r[i].value == password)) &&
      |r| == (if firstName != "" then 1 else 0) + (if lastName != "" then 1 else 0) +
             (if password != "" then 1 else 0) &&
      (forall i, j :: 0 <= i < j < |r| ==> r[i].column.Position() < r[j].column.Position())
  {
    var f, l, p := Assignment(FirstNameColumn, firstName), Assignment(LastNameColumn, lastName),
                   Assignment(PasswordColumn, password);
    var r := Assignments(firstName, lastName, password);
    if firstName != "" {
      if lastName != "" {
        if password != "" { assert r == [f, l, p]; } else { assert r == [f, l]; }
      } else {
        if password != "" { assert r == [f, p]; } else { assert r == [f]; }
      }
    } else {
      if lastName != "" {
        if password != "" { assert r == [l, p]; } else { assert r == [l]; }
      } else {
        if password != "" { assert r == [p]; } else { assert r == []; }
      }
    }
  }


  /** The clause `column = $n` for one assignment bound to placeholder n. */
  function Clause(f: Assignment, n: nat): string {
    f.column.Name() + " = $" + Decimal(n)
  }

  /** The SET list, built clause by clause as `UpdateAccount` appends them:
      the i-th assignment binds placeholder `$(i+1)`. */
  function SetClauses(fs: seq<Assignment>): (r: seq<string>)
    ensures |r| == |fs|
    ensures forall i :: 0 <= i < |fs| ==> r[i] == Clause(fs[i], i + 1)
  {
    if fs == [] then [] else SetClauses(fs[..|fs| - 1]) + [Clause(fs[|fs| - 1], |fs|)]
  }

  /** Appending an assignment appends its clause, numbered after the ones
      before it. */
  lemma SetClausesSnoc(fs: seq<Assignment>, f: Assignment)
    ensures SetClauses(fs + [f]) == SetClauses(fs) + [Clause(f, |fs| + 1)]
  {
    assert (fs + [f])[..|fs|] == fs;
  }

  /** A positional query argument. */
  datatype SqlArg = Text(s: string) | Int(n: int)

  /** The values of the assignments, in order, as text arguments. */
  function Texts(fs: seq<Assignment>): seq<SqlArg> {
    seq(|fs|, i requires 0 <= i < |fs| => Text(fs[i].value))
  }

  lemma TextsSnoc(fs: seq<Assignment>, f: Assignment)
    ensures Texts(fs + [f]) == Texts(fs) + [Text(f.value)]
  {
    assert (fs + [f])[..|fs|] == fs;
  }

  /** A query text together with the arguments bound to `$1`, `$2`, .... */
  datatype Statement = Statement(query: string, args: seq<SqlArg>)

  /** The UPDATE text for the given assignments: their SET clauses joined
      by commas, and the id bound to the placeholder after them. */
  function UpdateQuery(fs: seq<Assignment>): string {
    "UPDATE account SET " + Join(SetClauses(fs), ", ") + " WHERE id = $" + Decimal(|fs| + 1)
  }

  /** The statement `UpdateAccount` sends, or "no fields to update" when
      every field is empty. */
  method BuildUpdate(firstName: string, lastName: string, password: string, id: int)
    returns (r: Result<Statement, StoreError>)
    ensures r.Failure? <==> firstName == "" && lastName == "" && password == ""
    ensures r.Failure? ==> r.error == NoFieldsToUpdate
    ensures r.Success? ==>
      var fs := Assignments(firstName, lastName, password);
      var k := |fs|;
      1 <= k <= 3 &&
      |r.value.args| == k + 1 &&
      r.value.args == Texts(fs) + [Int(id)] &&
      r.value.query == UpdateQuery(fs)
  {
    var setClauses: seq<string> := [];
    var args: seq<SqlArg> := [];
    var argId: nat := 1;
    ghost var fs: seq<Assignment> := [];

    if firstName != "" {
      setClauses := setClauses + [FirstNameColumn.Name() + " = $" + Decimal(argId)];
      args := args + [Text(firstName)];
      argId := argId + 1;
      SetClausesSnoc(fs, Assignment(FirstNameColumn, firstName));
      TextsSnoc(fs, Assignment(FirstNameColumn, firstName));
      fs := fs + [Assignment(FirstNameColumn, firstName)];
    }
    assert setClauses == SetClauses(fs) && args == Texts(fs) && argId == |fs| + 1;
    if lastName != "" {
      setClauses := setClauses + [LastNameColumn.Name() + " = $" + Decimal(argId)];
      args := args + [Text(lastName)];
      argId := argId + 1;
      SetClausesSnoc(fs, Assignment(LastNameColumn, lastName));
      TextsSnoc(fs, Assignment(LastNameColumn, lastName));
      fs := fs + [Assignment(LastNameColumn, lastName)];
    }
    assert setClauses == SetClauses(fs) && args == Texts(fs) && argId == |fs| + 1;
    if password != "" {
      setClauses := setClauses + [PasswordColumn.Name() + " = $" + Decimal(argId)];
      args := args + [Text(password)];
      argId := argId + 1;
      SetClausesSnoc(fs, Assignment(PasswordColumn, password));
      TextsSnoc(fs, Assignment(PasswordColumn, password));
      fs := fs + [Assignment(PasswordColumn, password)];
    }
    assert setClauses == SetClauses(fs) && args == Texts(fs) && argId == |fs| + 1;
    assert fs == Assignments(firstName, lastName, password);

    if |setClauses| == 0 {
      return Failure(NoFieldsToUpdate);
    }

    var query := "UPDATE account SET " + Join(setClauses, ", ") + " WHERE id = $" + Decimal(argId);
    assert query == UpdateQuery(fs);
    args := args + [Int(id)];
    return Success(Statement(query, args));
  }

  // ---------------------------------------------------------------------
  // The store

  /** `PostgresStore`: the `account` table and the serial sequence that
      numbers its ids. */
  class PostgresStore {
    var rows: seq<AccountRow>
    var nextId: int

    ghost predicate Valid()
      reads this
    {
      nextId >= 1 &&
      UniqueIds(rows) &&
      forall i :: 0 <= i < |rows| ==> rows[i].id < nextId
    }

    /** An empty table whose serial starts at 1. */
    constructor ()
      ensures Valid() && rows == [] && nextId == 1
    {
      rows, nextId := [], 1;
    }

    /** Inserts a row with the account's fields; the id comes from the
        serial, and the in-memory account is not told about it. */
    method CreateAccount(acc: Account, fails: bool) returns (err: Option<StoreError>)
      requires Valid()
      modifies this
      ensures Valid()
      ensures fails ==> err == Some(Unavailable) && rows == old(rows) && nextId == old(nextId)
      ensures !fails ==> err == None && nextId == old(nextId) + 1 &&
                         rows == old(rows) + [acc.Row().(id := old(nextId))]
    {
      if fails {
        return Some(Unavailable);
      }
      rows := rows + [acc.Row().(id := nextId)];
      nextId := nextId + 1;
      return None;
    }

    /** Sets the non-empty name and password fields of the row with the
        account's id, through the statement `BuildUpdate` produces. */
    method UpdateAccount(acc: Account, firstName: string, lastName: string, password: string, fails: bool)
      returns (err: Option<StoreError>)
      requires Valid()
      modifies this
      ensures Valid() && nextId == old(nextId)
      ensures firstName == "" && lastName == "" && password == "" ==>
        err == Some(NoFieldsToUpdate) && rows == old(rows)
      ensures (firstName != "" || lastName != "" || password != "") && fails ==>
        err == Some(Unavailable) && rows == old(rows)
      ensures (firstName != "" || lastName != "" || password != "") && !fails ==>
        err == None && rows == UpdateFields(old(rows), acc.id, firstName, lastName, password)
    {
      var stmt := BuildUpdate(firstName, lastName, password, acc.id);
      if stmt.Failure? {
        return Some(stmt.error);
      }
      if fails {
        return Some(Unavailable);
      }
      rows := UpdateFields(rows, acc.id, firstName, lastName, password);
      return None;
    }

    /** Writes the account's in-memory balance to the row with its id. An
        id no row has is not an error: the update just matches nothing. */
    method UpdateAccountBalance(acc: Account, fails: bool) returns (err: Option<StoreError>)
      requires Valid()
      modifies this
      ensures Valid() && nextId == old(nextId)
      ensures fails ==> err == Some(Unavailable) && rows == old(rows)
      ensures !fails ==> err == None && rows == SetBalance(old(rows), acc.id, acc.balance)
    {
      if fails {
        return Some(Unavailable);
      }
      SetBalanceKeepsKeys(rows, acc.id, acc.balance);
      rows := SetBalance(rows, acc.id, acc.balance);
      return None;
    }

    /** Removes the row with the given id; an absent id is not an error. */
    method DeleteAccount(id: int, fails: bool) returns (err: Option<StoreError>)
      requires Valid()
      modifies this
      ensures Valid() && nextId == old(nextId)
      ensures fails ==> err == Some(Unavailable) && rows == old(rows)
      ensures !fails ==> err == None && rows == WithoutId(old(rows), id)
    {
      if fails {
        return Some(Unavailable);
      }
      WithoutIdKeepsUniqueIds(rows, id);
      rows := WithoutId(rows, id);
      return None;
    }

    /** Every row, scanned one by one into fresh in-memory accounts. */
    method GetAccounts(fails: bool) returns (r: Result<seq<Account>, StoreError>)
      requires Valid()
      ensures fails <==> r.Failure?
      ensures r.Failure? ==> r.error == Unavailable
      ensures r.Success? ==>
        |r.value| == |rows| &&
        forall i :: 0 <= i < |rows| ==> fresh(r.value[i]) && r.value[i].Row() == rows[i]
    {
      if fails {
        return Failure(Unavailable);
      }
      var accounts: seq<Account> := [];
      var i := 0;
      while i < |rows|
        invariant 0 <= i <= |rows|
        invariant |accounts| == i
        invariant forall j :: 0 <= j < i ==> fresh(accounts[j]) && accounts[j].Row() == rows[j]
      {
        var account := new Account.FromRow(rows[i]);
        accounts := accounts + [account];
        i := i + 1;
      }
      return Success(accounts);
    }

    /** The row with the given id, or "account <id> not found". */
    method GetAccountByID(id: int, fails: bool) returns (r: Result<Account, StoreError>)
      requires Valid()
      ensures r.Success? <==> !fails && Find(rows, ById(id)).Some?
      ensures r.Success? ==> fresh(r.value) && r.value.Row() == Find(rows, ById(id)).value
      ensures r.Failure? ==> r.error == if fails then Unavailable else AccountNotFound(id)
    {
      r := GetAccountBy(ById(id), fails);
    }

    /** The first row with the given number, or "account <number> not
        found". */
    method GetAccountByNumber(number: int64, fails: bool) returns (r: Result<Account, StoreError>)
      requires Valid()
      ensures r.Success? <==> !fails && Find(rows, ByNumber(number)).Some?
      ensures r.Success? ==> fresh(r.value) && r.value.Row() == Find(rows, ByNumber(number)).value
      ensures r.Failure? ==> r.error == if fails then Unavailable else AccountNotFound(number)
    {
      r := GetAccountBy(ByNumber(number), fails);
    }

    /** The query and the first-row scan shared by both point lookups. */
    method GetAccountBy(key: Key, fails: bool) returns (r: Result<Account, StoreError>)
      ensures r.Success? <==> !fails && Find(rows, key).Some?
      ensures r.Success? ==> fresh(r.value) && r.value.Row() == Find(rows, key).value
      ensures r.Failure? ==> r.error == if fails then Unavailable else AccountNotFound(key.Value())
    {
      if fails {
        return Failure(Unavailable);
      }
      var found := Find(rows, key);
      if found.None? {
        return Failure(AccountNotFound(key.Value()));
      }
      var account := new Account.FromRow(found.value);
      return Success(account);
    }
  }
}
