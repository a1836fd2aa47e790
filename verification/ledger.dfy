/** The ledger of the Streamlit banking app: the `BankDatabase` store (an
    accounts table and an append-only transactions table) together with the
    balance-changing form handlers that drive it. Every operation is a pure
    step from the tables before to the tables after; a failure (an early
    `return False`, a `rollback`, a handler that does nothing) leaves the
    tables exactly as they were. Amounts are whole rupees. */
module Ledger {
  datatype AccountType = Savings | Current

  /** A row of the accounts table. The `status` column, which no operation
      checks (it is only displayed), is not modelled. */
  datatype Account = Account(
    owner: nat,
    accountType: AccountType,
    holder: string,
    phone: string,
    address: string,
    balance: int)

  /** The four values ever written to `transaction_type`. */
  datatype TxnType = Deposit | Withdrawal | TransferIn | TransferOut

  /** A row of the transactions table. */
  datatype Txn = Txn(
    account: string,
    txnType: TxnType,
    amount: int,
    balanceAfter: int,
    description: string,
    reference: string)

  /** Accounts keyed by account number, and the transaction log in insertion
      order, which stands for timestamp order. */
  datatype Bank = Bank(accounts: map<string, Account>, log: seq<Txn>)

  datatype Error =
    | AccountNotFound
    | InsufficientFunds
    | SourceUnavailable     // transfer: source missing, or its balance below the amount
    | DestinationNotFound
    | SameAccount
    | DuplicateAccount      // PRIMARY KEY violation on the account number
    | DuplicateReference    // UNIQUE violation on the reference number
    | MissingFields
    | BelowMinimumDeposit

  datatype Result<+T> = Ok(value: T) | Err(error: Error)

  /** What an operation leaves behind: the tables after it and what it reported. */
  datatype Step<+T> = Step(bank: Bank, result: Result<T>)

  /** `after` holds the same accounts as `before`; those outside `changed` are
      identical, and those inside differ at most in their balance. */
  ghost predicate OnlyBalancesOf(before: map<string, Account>, after: map<string, Account>, changed: set<string>)
  {
    && after.Keys == before.Keys
    && (forall n :: n in before && n !in changed ==> after[n] == before[n])
    && (forall n :: n in changed && n in before ==> after[n] == before[n].(balance := after[n].balance))
  }

  // ---------------------------------------------------------------------
  // Account numbers: "ACC" followed by random.randint(100000000, 999999999)
  // ---------------------------------------------------------------------

  const AccountNumberLow := 100000000
  const AccountNumberHigh := 999999999
  const AccountNumberDigits := 9

  function Pow10(k: nat): nat
  {
    if k == 0 then 1 else 10 * Pow10(k - 1)
  }

  predicate IsDigit(c: char) {
    '0' <= c <= '9'
  }

  /** The `width` lowest decimal digits of `n`, most significant first. */
  function Digits(n: nat, width: nat): (s: string)
    ensures |s| == width
    ensures forall k :: 0 <= k < |s| ==> IsDigit(s[k])
  {
    if width == 0 then "" else Digits(n / 10, width - 1) + [('0' as int + n % 10) as char]
  }

  /** The number a string of decimal digits denotes. */
  function DigitsValue(s: string): (v: nat)
    requires forall k :: 0 <= k < |s| ==> IsDigit(s[k])
  {
    if s == [] then 0
    else
      assert IsDigit(s[|s| - 1]);
      DigitsValue(s[..|s| - 1]) * 10 + (s[|s| - 1] as int - '0' as int)
  }

  /** Reading back the digits written for a number that fits recovers it. */
  lemma {:induction false} DigitsRoundTrip(n: nat, width: nat)
    requires n < Pow10(width)
    ensures DigitsValue(Digits(n, width)) == n
  {
    if width > 0 {
      DigitsRoundTrip(n / 10, width - 1);
      var s := Digits(n, width);
      assert s[..|s| - 1] == Digits(n / 10, width - 1);
    }
  }

  /** generate_account_number for a given draw of the random generator. Every
      draw in range is nine digits long, so the digits are exactly Python's
      `str` of the draw. */
  function AccountNumber(draw: int): (number: string)
    requires AccountNumberLow <= draw <= AccountNumberHigh
    ensures |number| == 3 + AccountNumberDigits && number[..3] == "ACC"
    ensures forall k :: 3 <= k < |number| ==> IsDigit(number[k])
  {
    "ACC" + Digits(draw, AccountNumberDigits)
  }

  /** An account number is "ACC" and nine digits, and the draw can be read back
      from it; so distinct draws give distinct numbers. */
  lemma AccountNumberRoundTrip(draw: int)
    requires AccountNumberLow <= draw <= AccountNumberHigh
    ensures |AccountNumber(draw)| == 12 && AccountNumber(draw)[..3] == "ACC"
    ensures forall k :: 3 <= k < 12 ==> IsDigit(AccountNumber(draw)[k])
    ensures DigitsValue(AccountNumber(draw)[3..]) == draw
  {
    assert AccountNumber(draw)[3..] == Digits(draw, AccountNumberDigits);
    assert Pow10(AccountNumberDigits) == 1000000000;
    DigitsRoundTrip(draw, AccountNumberDigits);
  }

  lemma AccountNumberInjective(draw1: int, draw2: int)
    requires AccountNumberLow <= draw1 <= AccountNumberHigh
    requires AccountNumberLow <= draw2 <= AccountNumberHigh
    ensures AccountNumber(draw1) == AccountNumber(draw2) ==> draw1 == draw2
  {
    AccountNumberRoundTrip(draw1);
    AccountNumberRoundTrip(draw2);
  }

  // ---------------------------------------------------------------------
  // The transaction log
  // ---------------------------------------------------------------------

  /** No record of the log already carries `reference`. */
  predicate FreshReference(log: seq<Txn>, reference: string)
  {
    forall i :: 0 <= i < |log| ==> log[i].reference != reference
  }

  /** add_transaction on an open cursor: one row appended, or the insert is
      refused by the UNIQUE constraint when the drawn reference is in use. The
      store does not check the amount, the balance or the account. */
  function AddTransaction(b: Bank, t: Txn): (r: Result<Bank>)
    ensures r.Ok? <==> FreshReference(b.log, t.reference)
    ensures r.Ok? ==> r.value.accounts == b.accounts && |r.value.log| == |b.log| + 1
    ensures r.Ok? ==> r.value.log[..|b.log|] == b.log && r.value.log[|b.log|] == t
    ensures r.Err? ==> r.error == DuplicateReference
  {
    if FreshReference(b.log, t.reference) then Ok(b.(log := b.log + [t])) else Err(DuplicateReference)
  }

  /** The records of account `number`, newest first, log order standing for
      time order. */
  function NewestFirst(log: seq<Txn>, number: string): seq<Txn>
    decreases |log|
  {
    if log == [] then []
    else
      var last := log[|log| - 1];
      (if last.account == number then [last] else []) + NewestFirst(log[..|log| - 1], number)
  }

  /** SQLite's LIMIT clause: at most `limit` rows, and no bound at all when the
      limit is negative. */
  function Limit<T>(s: seq<T>, limit: int): seq<T>
  {
    if 0 <= limit < |s| then s[..limit] else s
  }

  /** A record appended to the log is the newest one of its account. */
  lemma NewestFirstAppend(log: seq<Txn>, t: Txn, number: string)
    ensures NewestFirst(log + [t], number)
         == (if t.account == number then [t] else []) + NewestFirst(log, number)
  {
  }

  /** The history of an account holds exactly the log's records of that account. */
  lemma {:induction false} NewestFirstContents(log: seq<Txn>, number: string)
    ensures forall t :: t in NewestFirst(log, number) <==> t in log && t.account == number
    ensures |NewestFirst(log, number)| <= |log|
    decreases |log|
  {
    if log != [] {
      var prefix := log[..|log| - 1];
      NewestFirstContents(prefix, number);
      assert log == prefix + [log[|log| - 1]];
      forall t ensures t in log <==> t in prefix || t == log[|log| - 1] {
        assert t in log <==> t in prefix + [log[|log| - 1]];
      }
    }
  }

  /** One more record of the log, read from its newest end. */
  lemma NewestFirstStep(log: seq<Txn>, i: nat, number: string)
    requires i < |log|
    ensures NewestFirst(log[..i + 1], number)
         == (if log[i].account == number then [log[i]] else []) + NewestFirst(log[..i], number)
  {
    assert log[..i + 1] == log[..i] + [log[i]];
    NewestFirstAppend(log[..i], log[i], number);
  }

  lemma ConcatPrefix<T>(front: seq<T>, back: seq<T>, whole: seq<T>)
    requires front + back == whole
    ensures |front| <= |whole| && front == whole[..|front|]
  {
  }

  /** get_transactions: scans the log from its newest end and keeps the first
      `limit` records of the account (all of them for a negative limit). */
  method GetTransactions(log: seq<Txn>, number: string, limit: int) returns (rows: seq<Txn>)
    ensures rows == Limit(NewestFirst(log, number), limit)
  {
    rows := [];
    var i := |log|;
    assert log[..i] == log;
    while i > 0 && (limit < 0 || |rows| < limit)
      invariant 0 <= i <= |log|
      invariant rows + NewestFirst(log[..i], number) == NewestFirst(log, number)
      invariant limit < 0 || |rows| <= limit
    {
      i := i - 1;
      NewestFirstStep(log, i, number);
      var older := NewestFirst(log[..i], number);
      if log[i].account == number {
        assert (rows + [log[i]]) + older == rows + ([log[i]] + older);
        rows := rows + [log[i]];
      } else {
        assert [] + older == older;
      }
    }
    ConcatPrefix(rows, NewestFirst(log[..i], number), NewestFirst(log, number));
    if i == 0 {
      assert log[..i] == [];
    }
  }

  // ---------------------------------------------------------------------
  // Opening accounts
  // ---------------------------------------------------------------------

  /** create_account: inserts the account with the opening deposit as its
      balance and, only for a positive deposit, logs an "Initial deposit"
      record in the same database transaction. A clash on the account number or
      on the record's reference rolls the whole insert back. */
  function CreateAccount(
    b: Bank, owner: nat, accountType: AccountType, holder: string, phone: string,
    address: string, initialDeposit: int, draw: int, reference: string): (r: Step<string>)
    requires AccountNumberLow <= draw <= AccountNumberHigh
    ensures r.result.Ok? <==>
      AccountNumber(draw) !in b.accounts && (initialDeposit > 0 ==> FreshReference(b.log, reference))
    ensures r.result.Err? ==> r.bank == b
    ensures AccountNumber(draw) in b.accounts ==> r.result == Err(DuplicateAccount)
    ensures r.result.Ok? ==>
      && r.result.value == AccountNumber(draw)
      && r.bank.accounts.Keys == b.accounts.Keys + {AccountNumber(draw)}
      && (forall n :: n in b.accounts ==> r.bank.accounts[n] == b.accounts[n])
      && r.bank.accounts[AccountNumber(draw)] == Account(owner, accountType, holder, phone, address, initialDeposit)
    ensures r.result.Ok? ==>
      && |r.bank.log| == |b.log| + (if initialDeposit > 0 then 1 else 0)
      && r.bank.log[..|b.log|] == b.log
      && (initialDeposit > 0 ==>
            r.bank.log[|b.log|] == Txn(AccountNumber(draw), Deposit, initialDeposit, initialDeposit, "Initial deposit", reference))
  {
    var number := AccountNumber(draw);
    if number in b.accounts then
      Step(b, Err(DuplicateAccount))
    else
      var inserted := b.(accounts := b.accounts[number := Account(owner, accountType, holder, phone, address, initialDeposit)]);
      if initialDeposit > 0 then
        match AddTransaction(inserted, Txn(number, Deposit, initialDeposit, initialDeposit, "Initial deposit", reference))
        case Ok(b') => Step(b', Ok(number))
        case Err(e) => Step(b, Err(e))
      else
        Step(inserted, Ok(number))
  }

  /** The smallest opening deposit the new-account form accepts. */
  function MinimumDeposit(accountType: AccountType): int
  {
    match accountType
    case Savings => 500
    case Current => 1000
  }

  /** show_new_account: every required field filled and the terms accepted,
      then an opening deposit of at least the minimum for the account type,
      before create_account is called. */
  function OpenAccount(
    b: Bank, owner: nat, accountType: AccountType, holder: string, phone: string,
    address: string, termsAccepted: bool, initialDeposit: int, draw: int, reference: string): (r: Step<string>)
    requires AccountNumberLow <= draw <= AccountNumberHigh
    ensures holder == [] || phone == [] || address == [] || !termsAccepted ==> r == Step(b, Err(MissingFields))
    ensures (holder != [] && phone != [] && address != [] && termsAccepted
             && initialDeposit < MinimumDeposit(accountType))
            ==> r == Step(b, Err(BelowMinimumDeposit))
    ensures (holder != [] && phone != [] && address != [] && termsAccepted
             && initialDeposit >= MinimumDeposit(accountType))
            ==> r == CreateAccount(b, owner, accountType, holder, phone, address, initialDeposit, draw, reference)
    ensures r.result.Err? ==> r.bank == b
    ensures r.result.Ok? ==>
      && initialDeposit >= MinimumDeposit(accountType)
      && r.result.value == AccountNumber(draw)
      && r.result.value !in b.accounts
      && r.bank.accounts.Keys == b.accounts.Keys + {r.result.value}
      && (forall n :: n in b.accounts ==> r.bank.accounts[n] == b.accounts[n])
      && r.bank.accounts[r.result.value] == Account(owner, accountType, holder, phone, address, initialDeposit)
      && |r.bank.log| == |b.log| + 1
      && r.bank.log[..|b.log|] == b.log
      && r.bank.log[|b.log|] == Txn(r.result.value, Deposit, initialDeposit, initialDeposit, "Initial deposit", reference)
  {
    if holder == [] || phone == [] || address == [] || !termsAccepted then
      Step(b, Err(MissingFields))
    else if initialDeposit < MinimumDeposit(accountType) then
      Step(b, Err(BelowMinimumDeposit))
    else
      CreateAccount(b, owner, accountType, holder, phone, address, initialDeposit, draw, reference)
  }

  // ---------------------------------------------------------------------
  // Deposit and withdrawal
  // ---------------------------------------------------------------------

  /** The deposit handlers (quick action and per-account form): read the
      account, write balance + amount, then log one `deposit` record carrying
      the new balance. A missing account makes the handler do nothing. */
  function MakeDeposit(b: Bank, number: string, amount: int, description: string, reference: string): (r: Step<string>)
    requires FreshReference(b.log, reference)
    ensures r.result.Ok? <==> number in b.accounts
    ensures r.result.Err? ==> r.result.error == AccountNotFound && r.bank == b
    ensures r.result.Ok? ==>
      && r.result.value == reference
      && number in r.bank.accounts
      && OnlyBalancesOf(b.accounts, r.bank.accounts, {number})
      && r.bank.accounts[number].balance == b.accounts[number].balance + amount
      && r.bank.log == b.log + [Txn(number, Deposit, amount, r.bank.accounts[number].balance, description, reference)]
  {
    if number !in b.accounts then
      Step(b, Err(AccountNotFound))
    else
      var account := b.accounts[number];
      var newBalance := account.balance + amount;
      Step(Bank(b.accounts[number := account.(balance := newBalance)],
                b.log + [Txn(number, Deposit, amount, newBalance, description, reference)]),
           Ok(reference))
  }

  /** The withdrawal handlers (quick action and per-account form): the
      withdrawal goes ahead only when the account exists and its balance covers
      the amount; then the balance drops by the amount and one `withdrawal`
      record carries the new balance. */
  function MakeWithdrawal(b: Bank, number: string, amount: int, description: string, reference: string): (r: Step<string>)
    requires FreshReference(b.log, reference)
    ensures r.result.Ok? <==> number in b.accounts && amount <= b.accounts[number].balance
    ensures r.result.Err? ==> r.bank == b
    ensures number !in b.accounts ==> r.result == Err(AccountNotFound)
    ensures number in b.accounts && amount > b.accounts[number].balance ==> r.result == Err(InsufficientFunds)
    ensures r.result.Ok? ==>
      && r.result.value == reference
      && number in r.bank.accounts
      && OnlyBalancesOf(b.accounts, r.bank.accounts, {number})
      && r.bank.accounts[number].balance == b.accounts[number].balance - amount
      && r.bank.log == b.log + [Txn(number, Withdrawal, amount, r.bank.accounts[number].balance, description, reference)]
  {
    if number !in b.accounts then
      Step(b, Err(AccountNotFound))
    else if b.accounts[number].balance < amount then
      Step(b, Err(InsufficientFunds))
    else
      var account := b.accounts[number];
      var newBalance := account.balance - amount;
      Step(Bank(b.accounts[number := account.(balance := newBalance)],
                b.log + [Txn(number, Withdrawal, amount, newBalance, description, reference)]),
           Ok(reference))
  }

  // ---------------------------------------------------------------------
  // Transfers
  // ---------------------------------------------------------------------

  /** transfer_money as written. Both new balances are computed from the
      balances read before either UPDATE, and the destination's UPDATE runs
      second; nothing here compares the two account numbers. Each leg draws its
      own reference; the reported one is the outgoing leg's. */
  function TransferMoney(b: Bank, from: string, to: string, amount: int, outReference: string, inReference: string): (r: Step<string>)
    ensures r.result.Err? ==> r.bank == b
    ensures from !in b.accounts || b.accounts[from].balance < amount ==> r.result == Err(SourceUnavailable)
    ensures (from in b.accounts && b.accounts[from].balance >= amount && to !in b.accounts)
            ==> r.result == Err(DestinationNotFound)
    ensures r.result.Ok? <==>
      && from in b.accounts && to in b.accounts && amount <= b.accounts[from].balance
      && FreshReference(b.log, outReference) && FreshReference(b.log, inReference)
      && outReference != inReference
    ensures r.result.Ok? ==>
      && r.result.value == outReference
      && OnlyBalancesOf(b.accounts, r.bank.accounts, {from, to})
      && r.bank.accounts[to].balance == b.accounts[to].balance + amount
      && (from != to ==> r.bank.accounts[from].balance == b.accounts[from].balance - amount)
    ensures r.result.Ok? ==>
      r.bank.log == b.log + [
        Txn(from, TransferOut, amount, b.accounts[from].balance - amount, "Transfer to " + to, outReference),
        Txn(to, TransferIn, amount, b.accounts[to].balance + amount, "Transfer from " + from, inReference)]
  {
    if from !in b.accounts || b.accounts[from].balance < amount then
      Step(b, Err(SourceUnavailable))
    else if to !in b.accounts then
      Step(b, Err(DestinationNotFound))
    else
      var newSource := b.accounts[from].balance - amount;
      var newDest := b.accounts[to].balance + amount;
      var debited := b.accounts[from := b.accounts[from].(balance := newSource)];
      var credited := debited[to := debited[to].(balance := newDest)];
      var updated := b.(accounts := credited);
      match AddTransaction(updated, Txn(from, TransferOut, amount, newSource, "Transfer to " + to, outReference))
      case Err(e) => Step(b, Err(e))
      case Ok(b1) =>
        match AddTransaction(b1, Txn(to, TransferIn, amount, newDest, "Transfer from " + from, inReference))
        case Err(e) => Step(b, Err(e))
        case Ok(b2) =>
          assert b2.log == b.log + [b1.log[|b.log|], b2.log[|b1.log|]];
          Step(b2, Ok(outReference))
  }

  /** show_transfer: refuses a transfer to the source account itself before
      calling transfer_money. Past that guard a transfer moves exactly `amount`
      from one account to another: their total is unchanged and nobody else is
      touched. */
  function TransferForm(b: Bank, from: string, to: string, amount: int, outReference: string, inReference: string): (r: Step<string>)
    ensures from == to ==> r == Step(b, Err(SameAccount))
    ensures from != to ==> r == TransferMoney(b, from, to, amount, outReference, inReference)
    ensures r.result.Err? ==> r.bank == b
    ensures r.result.Ok? ==>
      && from != to && from in b.accounts && to in b.accounts
      && amount <= b.accounts[from].balance
      && OnlyBalancesOf(b.accounts, r.bank.accounts, {from, to})
      && r.bank.accounts[from].balance == b.accounts[from].balance - amount
      && r.bank.accounts[to].balance == b.accounts[to].balance + amount
      && r.bank.accounts[from].balance + r.bank.accounts[to].balance
         == b.accounts[from].balance + b.accounts[to].balance
    ensures r.result.Ok? ==>
      && |r.bank.log| == |b.log| + 2
      && r.bank.log[..|b.log|] == b.log
      && r.bank.log[|b.log|].account == from && r.bank.log[|b.log|].txnType == TransferOut
      && r.bank.log[|b.log|].balanceAfter == r.bank.accounts[from].balance
      && r.bank.log[|b.log| + 1].account == to && r.bank.log[|b.log| + 1].txnType == TransferIn
      && r.bank.log[|b.log| + 1].balanceAfter == r.bank.accounts[to].balance
  {
    if from == to then Step(b, Err(SameAccount))
    else TransferMoney(b, from, to, amount, outReference, inReference)
  }

  /** The record a deposit logs is the first row get_transactions returns for
      that account afterwards. */
  lemma DepositIsNewestRecord(b: Bank, number: string, amount: int, description: string, reference: string)
    requires FreshReference(b.log, reference)
    requires number in b.accounts
    ensures var r := MakeDeposit(b, number, amount, description, reference);
      Limit(NewestFirst(r.bank.log, number), 1)
        == [Txn(number, Deposit, amount, b.accounts[number].balance + amount, description, reference)]
  {
  }
}
