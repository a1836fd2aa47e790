# Bank ledger models

A Dafny model of the three small banks in this repository, with proofs of the
properties each one keeps.

- **Ledger** (`ledger.dfy`, `ledger_invariants.dfy`) models the Streamlit app's
  `BankDatabase`: an accounts table keyed by account number and an append-only
  transactions table. It also models the form handlers that change balances:
  opening an account, deposit, withdrawal and transfer, each with its guard.
  Every operation is a pure step from the tables before to the tables after. A
  failure leaves the tables exactly as they were: an early `return False`, a
  `rollback`, or a handler that silently does nothing.
- **Identity** (`identity.dfy`) models the users table: `register_user` and
  `authenticate_user`. bcrypt's `hashpw`/`checkpw` are function parameters and
  the salt is an input.
- **CppBank** (`cpp_bank.dfy`) models `BankAccount` and `Bank` from `main.cpp`.
  Account numbers map to accounts; balances are 32-bit `int`s; the results of
  `rand()` are an input sequence.
- **CBank** (`c_bank.dfy`) models `bank.c`: an array of 100 slots and a count
  of used slots. The array methods are proved against the pure functions
  `FirstMatch` and `Deposited`, and the lemmas are stated over those functions.
- `wrappers.dfy` holds the shared `Option` type.

Money is whole rupees (or whole units) as unbounded integers, except the C++
bank's balances, which are 32-bit `int`s. The log's order stands for timestamp
order.

The properties proved, in brief:

- **Ledger consistency.** Every account's balance equals the signed sum of its
  records. Deposits and incoming transfers count positive; withdrawals and
  outgoing transfers count negative. Every record names an existing account,
  and reference numbers are unique. Opening an account, deposit, withdrawal and
  the guarded transfer all preserve this.
- **The transfer guard is needed.** `transfer_money` by itself does not preserve
  consistency. A transfer from an account to itself succeeds, and because the
  second UPDATE overwrites the first, the account ends `amount` richer. The
  only thing stopping this is the same-account check in `show_transfer`.
- **Non-negative balances** are preserved by every operation of the Python
  ledger that the forms can reach, with the forms' positive amounts: opening
  an account through the form, a deposit of a positive amount, any withdrawal,
  and a guarded transfer of a positive amount. The ledger functions by
  themselves do not keep this: `create_account` stores a negative opening
  balance, and the deposit path and `transfer_money` accept a negative amount.
  The C++ bank keeps the invariant for every deposit and withdrawal. bank.c's
  `depositMoney` adds whatever amount it is given, negative included, so the C
  bank keeps no such invariant.
- **Conservation.** A guarded transfer moves exactly `amount`: the two balances
  keep their sum, and no other account changes.
- **Round trips.** From a non-negative balance, depositing then withdrawing
  the same amount restores every account and adds exactly two records. A newly registered user can log in and
  gets the new id. An account number can be decoded back to its random draw,
  so distinct draws give distinct numbers.
- **History.** `get_transactions` returns exactly the newest `limit` records
  of the account, newest first, with SQLite's "negative LIMIT means no limit"
  rule. A deposit's record is the first row returned afterwards.

Three facts about the Python code shape the model:

- **Transfer references.** `transfer_money` calls `add_transaction` once per
  leg, so each leg draws its own reference; the reference it reports is the
  outgoing leg's.
- **Where the checks live.** `transfer_money` does not compare the two account
  numbers; the same-account check is in `show_transfer`. No ledger function
  checks that an amount is positive; the positive amount comes from the form
  widgets' `min_value=1.0`.
- **Opening balance.** `create_account` accepts any opening balance, negative
  included. Only the form insists on at least 500 (savings) or 1000 (current).

## Model

| member | source | states |
|---|---|---|
| Ledger.AccountNumber | bank_management_app.py:202-204 | an account number is twelve characters: "ACC" followed by nine decimal digits |
| Ledger.AccountNumberRoundTrip | bank_management_app.py:202-204 | an account number is "ACC" and nine digits, and its digits read back as the random draw |
| Ledger.AccountNumberInjective | bank_management_app.py:202-204 | two draws give the same account number only if they are the same draw |
| Ledger.DigitsRoundTrip | bank_management_app.py:204 | writing a number in decimal and reading it back gives the number |
| Ledger.AddTransaction | bank_management_app.py:248-269 | appends exactly the given record and keeps the accounts; it fails only when the reference is already in the log (UNIQUE on reference_number) |
| Ledger.CreateAccount | bank_management_app.py:177-200 | succeeds iff the new number is unused and, for a positive deposit, the reference is fresh; then exactly one new key holds the opening deposit as balance and no other account changes; an "Initial deposit" record with balance_after = deposit is appended iff the deposit is positive; on failure nothing changes |
| Ledger.OpenAccount | bank_management_app.py:781-795 | missing fields or unaccepted terms, or a deposit below 500 (savings) / 1000 (current), leave the tables unchanged; with every field filled, the terms accepted and a deposit at or above the minimum, the outcome is exactly create_account's; a created account holds the deposit (at least the minimum), no other account changes, and the earlier log is kept with one "Initial deposit" record appended |
| Ledger.MakeDeposit | bank_management_app.py:610-626 | (also the quick action at lines 545-553) succeeds iff the account exists; then only that balance changes, by +amount, and exactly one deposit record carrying the new balance is appended; otherwise nothing changes |
| Ledger.MakeWithdrawal | bank_management_app.py:628-649 | (also the quick action at lines 563-574) succeeds iff the account exists and amount <= balance; then only that balance changes, by -amount, and one withdrawal record carries the new balance; a missing account or an insufficient balance changes nothing |
| Ledger.TransferMoney | bank_management_app.py:288-330 | a missing source or a balance below amount fails first, a missing destination second, and failures change nothing; on success only the two balances change, the destination gains amount, the source loses amount when distinct, and exactly a transfer_out and then a transfer_in record are appended; the outgoing reference is returned |
| Ledger.TransferForm | bank_management_app.py:747-758 | a transfer to the same account is refused with no change; a transfer between distinct accounts is carried out exactly as transfer_money; a successful one debits the source and credits the destination by amount, keeps their sum, touches no other account, and appends transfer_out and transfer_in records whose balance_after are the new balances |
| Ledger.GetTransactions | bank_management_app.py:271-286 | returns the account's records newest first, cut to `limit` rows (no cut for a negative limit) |
| Ledger.NewestFirstAppend | bank_management_app.py:276-282 | a record appended to the log becomes the first row of its own account's history and leaves other histories unchanged |
| Ledger.NewestFirstContents | bank_management_app.py:276-282 | a history contains a record iff the record is in the log and belongs to the account |
| Ledger.DepositIsNewestRecord | bank_management_app.py:618-626 | after a deposit, get_transactions with limit 1 returns exactly the deposit record with the new balance |
| LedgerInvariants.CreateAccountPreservesConsistency | bank_management_app.py:184-192 | opening an account with a non-negative deposit keeps every balance equal to its records' signed sum, every record attached to an account, and references unique |
| LedgerInvariants.DepositPreservesConsistency | bank_management_app.py:618-626 | a deposit keeps the ledger consistent |
| LedgerInvariants.WithdrawalPreservesConsistency | bank_management_app.py:640-649 | a withdrawal keeps the ledger consistent |
| LedgerInvariants.TransferPreservesConsistency | bank_management_app.py:308-324 | a transfer past the same-account guard keeps the ledger consistent |
| LedgerInvariants.SelfTransferMintsMoney | bank_management_app.py:309-321 | without the guard, a transfer from an account to itself succeeds, raises its balance by amount and breaks ledger consistency |
| LedgerInvariants.OpenAccountKeepsNonNegative | bank_management_app.py:781-795 | opening an account through the form never creates a negative balance |
| LedgerInvariants.DepositKeepsNonNegative | bank_management_app.py:610-626 | a deposit of a positive amount keeps every balance non-negative |
| LedgerInvariants.WithdrawalKeepsNonNegative | bank_management_app.py:640-649 | a withdrawal keeps every balance non-negative |
| LedgerInvariants.TransferKeepsNonNegative | bank_management_app.py:744-758 | a guarded transfer of a positive amount keeps every balance non-negative |
| LedgerInvariants.DepositThenWithdrawRestores | bank_management_app.py:545-574 | from a non-negative balance, deposit then withdrawal of the same amount both succeed, restore all accounts exactly and append exactly the two records with balance_after old+amount and old |
| Identity.RegisterUser | bank_management_app.py:146-162 | fails iff the username or the email is already present, and then the table is unchanged; otherwise one user row with the next id and the hash of the password is appended; well-formedness (sequential ids, unique usernames and emails) is kept |
| Identity.FindUser | bank_management_app.py:169-170 | finds the first row holding the username, or reports that none does |
| Identity.AuthenticateUser | bank_management_app.py:164-175 | returns an id only for an existing username whose stored hash accepts the password; on a well-formed table it returns one exactly when such a user exists |
| Identity.RegisterThenAuthenticate | bank_management_app.py:146-175 | a freshly registered user logs in with the same password and gets the new id |
| Identity.DuplicateUsernameRejected | bank_management_app.py:151-160 | registering an existing username fails and leaves that user's row unchanged |
| CppBank.AccountDeposit | main.cpp:24-31 | a positive amount is added to the balance, anything else leaves the account unchanged; no other field changes |
| CppBank.AccountWithdraw | main.cpp:33-45 | amount > balance is refused first and amount <= 0 second, without change; success exactly when 0 < amount <= balance, then balance drops by amount; a non-negative balance stays non-negative |
| CppBank.DepositThenWithdraw | main.cpp:24-45 | from a non-negative balance, depositing and withdrawing the same positive amount succeeds and restores the account |
| CppBank.DrawToNumber | main.cpp:66 | every draw of rand() yields a six-digit number in [100000, 999999] |
| CppBank.GenerateAccountNumber | main.cpp:62-69 | returns the first drawn number that is not yet a key, in [100000, 999999]; every earlier draw collided |
| CppBank.OpenAccount | main.cpp:87-93 | a negative initial deposit creates nothing; a non-negative one opens an account unless every supplied draw collides; the number is the first draw not yet a key; an opened account is exactly one new key, holding an account with the initial deposit as balance, and existing entries are untouched |
| CppBank.DepositMoney | main.cpp:96-109 | an unknown number changes nothing; a known one has only its own entry changed, by the account-level deposit |
| CppBank.WithdrawMoney | main.cpp:111-124 | an unknown number changes nothing; a known one has only its own entry changed, by the account-level withdrawal |
| CppBank.DepositKeepsNonNegative | main.cpp:96-109 | Bank::depositMoney keeps every balance non-negative |
| CppBank.WithdrawKeepsNonNegative | main.cpp:111-124 | Bank::withdrawMoney keeps every balance non-negative |
| CBank.FirstMatch | bank.c:44-45 | finds the first used slot holding the number, or reports that no used slot does |
| CBank.DepositedTouchesFirstMatchOnly | bank.c:43-52 | a deposit adds the amount to the first matching slot and changes no other slot; with no match the array is unchanged |
| CBank.DuplicateIsShadowed | bank.c:37-49 | a second account added under a used number is never credited by depositMoney |
| CBank.FreshAccountIsFound | bank.c:37-62 | an account added under an unused number is the one the scans find afterwards |
| CBank.AddAccount | bank.c:37-41 | writes slot accountCount with the number and balance 0, increments the count and leaves every other slot unchanged; needs room in the array and a number under 20 characters |
| CBank.DepositMoney | bank.c:43-52 | reports a match iff some used slot holds the number, and leaves the array as Deposited describes: the first match is credited and nothing else changes; the count is untouched |
| CBank.CheckBalance | bank.c:54-62 | finds a balance iff some used slot holds the number, and then it is the first such slot's balance; nothing is written |

## Left out

- Money: `REAL` balances in the Python app and `double` in bank.c are whole-unit integers here; fractional amounts and rounding are not modelled.
- Ledger.MakeDeposit: requires a fresh reference. The code updates the balance and inserts the record over two separate connections, so a reference collision there (a uuid clash) would raise after the balance was written. That partial state is not modelled.
- Ledger.MakeWithdrawal: requires a fresh reference, for the same reason as MakeDeposit.
- Ledger.TransferMoney: does not require `amount > 0`. The form's `min_value=1.0` provides it, and the non-negativity lemma for transfers assumes it.
- LedgerInvariants.CreateAccountPreservesConsistency: assumes a non-negative opening deposit. `create_account` stores a negative one as the balance without a record, which breaks the invariant; only the form's minimum deposit rules this out.
- Randomness is an input: the `random.randint` draw for account numbers, the uuid references, the bcrypt salt, and the C++ `rand()` draws. Reseeding with `srand(time(0))` on every call is not modelled.
- CppBank.GenerateAccountNumber: when every supplied draw collides it returns None. The source would keep drawing forever.
- CppBank.OpenAccount: for the same reason, a non-negative deposit opens no account when every supplied draw collides. The source always opens one.
- CppBank.AccountDeposit: requires that the addition does not overflow a 32-bit `int`, which is undefined behaviour in C++.
- Timestamps and their one-second resolution are not modelled; log order stands for time order in `get_transactions`.
- The account `status` column, which no operation checks (it is only displayed), is not modelled.
- The `user_id` column is modelled as `Account.owner`, but its foreign-key constraint on the users table is not. SQLite does not enforce it by default.
- The forms offer only the signed-in user's own accounts as the source of a deposit, withdrawal or transfer. That restriction is not modelled: the ledger operations accept any account number.
- Read paths that only display data are not modelled: `get_user_accounts` (the accounts whose `user_id` is the given user), `get_account_details`, `BankAccount::displayAccount`, `Bank::displayAccount`, and the console output of `checkBalance`. `update_balance` appears inside the deposit and withdrawal handlers that call it.
- The Streamlit UI is not modelled: session state, navigation, dashboards, charts, and the login/registration form checks (non-empty fields, password confirmation).
- SQLite plumbing (connections, cursors, DDL) and concurrency are not modelled. Each operation is one step, and the code has no concurrency control to model.
- bank.c `saveAccounts`/`loadAccounts` file I/O and all `main` menu loops with console input are not modelled.
- create_demo_data.py, the demo seeding script, is not part of this model.
