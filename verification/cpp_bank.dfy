/** The console bank of main.cpp: `BankAccount` guards its own deposits and
    withdrawals, and `Bank` keeps a map from six-digit account numbers to
    accounts. Balances are C++ `int`; the random generator's draws are an
    input sequence. */
module CppBank {
  import opened Wrappers

  const IntMax := 0x7fff_ffff

  /** The values of a 32-bit C++ `int`. */
  type Int32 = x: int | -0x8000_0000 <= x <= IntMax

  datatype BankAccount = BankAccount(name: string, address: string, accountType: char, balance: Int32)

  /** What withdrawMoney reported, in the order its checks run. */
  datatype WithdrawStatus = Withdrawn | InsufficientBalance | InvalidAmount

  datatype Withdrawal = Withdrawal(account: BankAccount, status: WithdrawStatus)

  /** BankAccount::depositMoney: a positive amount is added, anything else is
      refused; only the balance can change. The addition must not overflow an
      `int`. */
  function AccountDeposit(account: BankAccount, amount: Int32): (r: BankAccount)
    requires amount <= 0 || account.balance + amount <= IntMax
    ensures r.balance - account.balance == (if amount > 0 then amount else 0)
    ensures r == account.(balance := r.balance)
  {
    if amount > 0 then account.(balance := account.balance + amount) else account
  }

  /** BankAccount::withdrawMoney: an amount above the balance is refused first,
      a non-positive amount second; otherwise the balance drops by the amount.
      It succeeds exactly when 0 < amount <= balance. */
  function AccountWithdraw(account: BankAccount, amount: Int32): (r: Withdrawal)
    ensures r.status == Withdrawn <==> 0 < amount <= account.balance
    ensures r.status == InsufficientBalance <==> amount > account.balance
    ensures r.status != Withdrawn ==> r.account == account
    ensures r.status == Withdrawn ==> r.account == account.(balance := account.balance - amount)
    ensures account.balance >= 0 ==> r.account.balance >= 0
  {
    if amount > account.balance then Withdrawal(account, InsufficientBalance)
    else if amount <= 0 then Withdrawal(account, InvalidAmount)
    else Withdrawal(account.(balance := account.balance - amount), Withdrawn)
  }

  /** Depositing and then withdrawing the same positive amount gives back the
      account as it was. */
  lemma DepositThenWithdraw(account: BankAccount, amount: Int32)
    requires account.balance >= 0
    requires amount > 0 && account.balance + amount <= IntMax
    ensures AccountWithdraw(AccountDeposit(account, amount), amount) == Withdrawal(account, Withdrawn)
  {
  }

  const AccountNumberLow := 100000
  const AccountNumberHigh := 999999

  /** `rand() % 900000 + 100000` for one draw of rand(), which is never negative. */
  function DrawToNumber(draw: nat): (n: int)
    ensures AccountNumberLow <= n <= AccountNumberHigh
  {
    draw % 900000 + 100000
  }

  /** Bank::generateAccountNumber: keeps drawing until a number is not yet a
      key. `draws` are the successive results of rand(); `used` is how many were
      consumed. When every supplied draw collides the result is None (the
      source would go on drawing). */
  method GenerateAccountNumber(accounts: map<int, BankAccount>, draws: seq<nat>) returns (number: Option<int>, used: nat)
    ensures used <= |draws|
    ensures number.Some? ==>
      && AccountNumberLow <= number.value <= AccountNumberHigh
      && number.value !in accounts
      && 0 < used && number.value == DrawToNumber(draws[used - 1])
    ensures number.Some? ==> forall j :: 0 <= j < used - 1 ==> DrawToNumber(draws[j]) in accounts
    ensures number.None? ==> used == |draws| && forall j :: 0 <= j < |draws| ==> DrawToNumber(draws[j]) in accounts
  {
    used := 0;
    while used < |draws|
      invariant used <= |draws|
      invariant forall j :: 0 <= j < used ==> DrawToNumber(draws[j]) in accounts
    {
      var candidate := DrawToNumber(draws[used]);
      used := used + 1;
      if candidate !in accounts {
        return Some(candidate), used;
      }
    }
    number := None;
  }

  /** Bank::openAccount: a negative initial deposit creates nothing; otherwise
      exactly one new key appears, holding the initial deposit, and every
      existing entry is untouched. A non-negative deposit opens an account
      unless every supplied draw collides, and the number is the first draw
      that is not yet a key. */
  method OpenAccount(
    accounts: map<int, BankAccount>, name: string, address: string, accountType: char,
    initialDeposit: Int32, draws: seq<nat>) returns (accounts': map<int, BankAccount>, number: Option<int>)
    ensures initialDeposit < 0 ==> accounts' == accounts && number.None?
    ensures initialDeposit >= 0 ==>
      (number.None? <==> forall j :: 0 <= j < |draws| ==> DrawToNumber(draws[j]) in accounts)
    ensures number.None? ==> accounts' == accounts
    ensures number.Some? ==>
      exists k :: 0 <= k < |draws| && number.value == DrawToNumber(draws[k])
        && forall j :: 0 <= j < k ==> DrawToNumber(draws[j]) in accounts
    ensures number.Some? ==>
      && initialDeposit >= 0
      && AccountNumberLow <= number.value <= AccountNumberHigh
      && number.value !in accounts
      && accounts'.Keys == accounts.Keys + {number.value}
      && accounts'[number.value] == BankAccount(name, address, accountType, initialDeposit)
      && (forall n :: n in accounts ==> accounts'[n] == accounts[n])
  {
    if initialDeposit < 0 {
      return accounts, None;
    }
    var used;
    number, used := GenerateAccountNumber(accounts, draws);
    if number.Some? {
      accounts' := accounts[number.value := BankAccount(name, address, accountType, initialDeposit)];
    } else {
      accounts' := accounts;
    }
  }

  /** Bank::depositMoney: an unknown number changes nothing; a known one has
      only its own entry passed to BankAccount::depositMoney. */
  function DepositMoney(accounts: map<int, BankAccount>, number: int, amount: Int32): (r: map<int, BankAccount>)
    requires number in accounts ==> amount <= 0 || accounts[number].balance + amount <= IntMax
    ensures number !in accounts ==> r == accounts
    ensures r.Keys == accounts.Keys
    ensures forall n :: n in accounts && n != number ==> r[n] == accounts[n]
    ensures number in accounts ==> r[number] == AccountDeposit(accounts[number], amount)
  {
    if number in accounts then accounts[number := AccountDeposit(accounts[number], amount)] else accounts
  }

  /** Bank::withdrawMoney: an unknown number changes nothing; a known one has
      only its own entry passed to BankAccount::withdrawMoney, whose answer is
      dropped. */
  function WithdrawMoney(accounts: map<int, BankAccount>, number: int, amount: Int32): (r: map<int, BankAccount>)
    ensures number !in accounts ==> r == accounts
    ensures r.Keys == accounts.Keys
    ensures forall n :: n in accounts && n != number ==> r[n] == accounts[n]
    ensures number in accounts ==> r[number] == AccountWithdraw(accounts[number], amount).account
  {
    if number in accounts then accounts[number := AccountWithdraw(accounts[number], amount).account] else accounts
  }

  ghost predicate NonNegative(accounts: map<int, BankAccount>)
  {
    forall n :: n in accounts ==> accounts[n].balance >= 0
  }

  /** No operation of the bank makes a balance negative. */
  lemma DepositKeepsNonNegative(accounts: map<int, BankAccount>, number: int, amount: Int32)
    requires NonNegative(accounts)
    requires number in accounts ==> amount <= 0 || accounts[number].balance + amount <= IntMax
    ensures NonNegative(DepositMoney(accounts, number, amount))
  {
  }

  lemma WithdrawKeepsNonNegative(accounts: map<int, BankAccount>, number: int, amount: Int32)
    requires NonNegative(accounts)
    ensures NonNegative(WithdrawMoney(accounts, number, amount))
  {
  }
}
