/** The accounting invariants of the ledger: every balance is the signed sum
    of the account's records, and no balance goes negative. Each operation a
    caller can reach through the forms preserves them; transfer_money on its
    own, without the same-account guard, does not. */
module LedgerInvariants {
  import opened Ledger

  /** A record's effect on its account's balance: deposits and incoming
      transfers count positive, withdrawals and outgoing transfers negative. */
  function Signed(t: Txn): int
  {
    match t.txnType
    case Deposit => t.amount
    case TransferIn => t.amount
    case Withdrawal => -t.amount
    case TransferOut => -t.amount
  }

  function SignedSum(records: seq<Txn>): int
  {
    if records == [] then 0 else Signed(records[0]) + SignedSum(records[1..])
  }

  /** The net effect of the log on account `number`. */
  function Net(log: seq<Txn>, number: string): int
  {
    SignedSum(NewestFirst(log, number))
  }

  /** No two records share a reference number (the UNIQUE constraint). */
  ghost predicate UniqueReferences(log: seq<Txn>)
  {
    forall i, j :: 0 <= i < j < |log| ==> log[i].reference != log[j].reference
  }

  /** Ledger consistency: every record belongs to an existing account, every
      balance equals the signed sum of its account's records, and references
      are unique. */
  ghost predicate Consistent(b: Bank)
  {
    && (forall i :: 0 <= i < |b.log| ==> b.log[i].account in b.accounts)
    && (forall n :: n in b.accounts ==> b.accounts[n].balance == Net(b.log, n))
    && UniqueReferences(b.log)
  }

  ghost predicate NonNegative(b: Bank)
  {
    forall n :: n in b.accounts ==> b.accounts[n].balance >= 0
  }

  /** Appending a record moves its own account's net by the record's signed
      amount and leaves every other account's net alone. */
  lemma NetAppend(log: seq<Txn>, t: Txn, number: string)
    ensures Net(log + [t], number) == Net(log, number) + (if t.account == number then Signed(t) else 0)
  {
    NewestFirstAppend(log, t, number);
    var rest := NewestFirst(log, number);
    if t.account == number {
      var history := [t] + rest;
      assert history[0] == t && history[1..] == rest;
      assert SignedSum(history) == Signed(t) + SignedSum(rest);
    } else {
      assert [] + rest == rest;
    }
  }

  /** An account with no records has a net of zero. */
  lemma {:induction false} NetWithoutRecords(log: seq<Txn>, number: string)
    requires forall i :: 0 <= i < |log| ==> log[i].account != number
    ensures Net(log, number) == 0
    decreases |log|
  {
    if log != [] {
      var prefix := log[..|log| - 1];
      NetWithoutRecords(prefix, number);
      assert NewestFirst(log, number) == [] + NewestFirst(prefix, number) == NewestFirst(prefix, number);
    }
  }

  lemma AppendFreshKeepsUnique(log: seq<Txn>, t: Txn)
    requires UniqueReferences(log) && FreshReference(log, t.reference)
    ensures UniqueReferences(log + [t])
  {
  }

  /** Opening an account with a non-negative deposit keeps the ledger
      consistent: a new number has no records, and a positive deposit is
      matched by its "Initial deposit" record. */
  lemma CreateAccountPreservesConsistency(
    b: Bank, owner: nat, accountType: AccountType, holder: string, phone: string,
    address: string, initialDeposit: int, draw: int, reference: string)
    requires AccountNumberLow <= draw <= AccountNumberHigh
    requires Consistent(b)
    requires initialDeposit >= 0
    ensures Consistent(CreateAccount(b, owner, accountType, holder, phone, address, initialDeposit, draw, reference).bank)
  {
    var r := CreateAccount(b, owner, accountType, holder, phone, address, initialDeposit, draw, reference);
    var number := AccountNumber(draw);
    if r.result.Ok? {
      NetWithoutRecords(b.log, number);
      if initialDeposit > 0 {
        var t := r.bank.log[|b.log|];
        assert r.bank.log == b.log + [t];
        forall n | n in r.bank.accounts
          ensures r.bank.accounts[n].balance == Net(r.bank.log, n)
        {
          NetAppend(b.log, t, n);
        }
        AppendFreshKeepsUnique(b.log, t);
      } else {
        assert r.bank.log == b.log;
      }
    }
  }

  /** One record appended to an existing account, whose balance moves by
      exactly the record's signed amount while nothing else changes, keeps the
      ledger consistent. */
  lemma SingleRecordPreservesConsistency(b: Bank, b': Bank, t: Txn)
    requires Consistent(b)
    requires FreshReference(b.log, t.reference)
    requires t.account in b.accounts
    requires b'.log == b.log + [t]
    requires OnlyBalancesOf(b.accounts, b'.accounts, {t.account})
    requires b'.accounts[t.account].balance == b.accounts[t.account].balance + Signed(t)
    ensures Consistent(b')
  {
    forall n | n in b'.accounts
      ensures b'.accounts[n].balance == Net(b'.log, n)
    {
      NetAppend(b.log, t, n);
    }
    AppendFreshKeepsUnique(b.log, t);
  }

  lemma DepositPreservesConsistency(b: Bank, number: string, amount: int, description: string, reference: string)
    requires Consistent(b)
    requires FreshReference(b.log, reference)
    ensures Consistent(MakeDeposit(b, number, amount, description, reference).bank)
  {
    var r := MakeDeposit(b, number, amount, description, reference);
    if r.result.Ok? {
      SingleRecordPreservesConsistency(b, r.bank, r.bank.log[|b.log|]);
    }
  }

  lemma WithdrawalPreservesConsistency(b: Bank, number: string, amount: int, description: string, reference: string)
    requires Consistent(b)
    requires FreshReference(b.log, reference)
    ensures Consistent(MakeWithdrawal(b, number, amount, description, reference).bank)
  {
    var r := MakeWithdrawal(b, number, amount, description, reference);
    if r.result.Ok? {
      SingleRecordPreservesConsistency(b, r.bank, r.bank.log[|b.log|]);
    }
  }

  /** A guarded transfer keeps the ledger consistent: the outgoing record
      matches the debit and the incoming record matches the credit. The proof
      passes through the bank with only the source debited and the outgoing
      record logged. */
  lemma TransferPreservesConsistency(b: Bank, from: string, to: string, amount: int, outReference: string, inReference: string)
    requires Consistent(b)
    ensures Consistent(TransferForm(b, from, to, amount, outReference, inReference).bank)
  {
    var r := TransferForm(b, from, to, amount, outReference, inReference);
    if r.result.Ok? {
      var out := r.bank.log[|b.log|];
      var inn := r.bank.log[|b.log| + 1];
      assert r.bank.log == b.log + [out] + [inn];
      TransferSteps(b, r.bank, out, inn);
    }
  }

  /** An intermediate bank used only by the proof: the source debited and the
      outgoing record logged, the destination not yet credited. transfer_money
      itself never passes through this state (both UPDATEs run before either
      insert); it splits the transfer into two single-record steps. */
  lemma Midpoint(b: Bank, b': Bank, out: Txn, inn: Txn) returns (mid: Bank)
    requires out.txnType == TransferOut && inn.txnType == TransferIn
    requires out.account != inn.account && out.account in b.accounts && inn.account in b.accounts
    requires FreshReference(b.log, inn.reference) && out.reference != inn.reference
    requires OnlyBalancesOf(b.accounts, b'.accounts, {out.account, inn.account})
    requires b'.accounts[out.account].balance == b.accounts[out.account].balance - out.amount
    requires b'.accounts[inn.account].balance == b.accounts[inn.account].balance + inn.amount
    requires b'.log == b.log + [out] + [inn]
    ensures mid.log == b.log + [out]
    ensures OnlyBalancesOf(b.accounts, mid.accounts, {out.account})
    ensures mid.accounts[out.account].balance == b.accounts[out.account].balance + Signed(out)
    ensures FreshReference(mid.log, inn.reference) && inn.account in mid.accounts
    ensures b'.log == mid.log + [inn]
    ensures OnlyBalancesOf(mid.accounts, b'.accounts, {inn.account})
    ensures b'.accounts[inn.account].balance == mid.accounts[inn.account].balance + Signed(inn)
  {
    var source := b.accounts[out.account];
    mid := Bank(b.accounts[out.account := source.(balance := source.balance - out.amount)], b.log + [out]);
  }

  /** The two steps of a transfer between distinct accounts, each one record
      matched by one balance change. */
  lemma TransferSteps(b: Bank, b': Bank, out: Txn, inn: Txn)
    requires Consistent(b)
    requires out.txnType == TransferOut && inn.txnType == TransferIn
    requires out.account != inn.account && out.account in b.accounts && inn.account in b.accounts
    requires FreshReference(b.log, out.reference) && FreshReference(b.log, inn.reference)
    requires out.reference != inn.reference
    requires OnlyBalancesOf(b.accounts, b'.accounts, {out.account, inn.account})
    requires b'.accounts[out.account].balance == b.accounts[out.account].balance - out.amount
    requires b'.accounts[inn.account].balance == b.accounts[inn.account].balance + inn.amount
    requires b'.log == b.log + [out] + [inn]
    ensures Consistent(b')
  {
    var mid := Midpoint(b, b', out, inn);
    SingleRecordPreservesConsistency(b, mid, out);
    SingleRecordPreservesConsistency(mid, b', inn);
  }

  /** Why show_transfer needs its guard: transfer_money from an account to
      itself succeeds whenever the balance covers the amount, the second UPDATE
      overwrites the first, and the account ends `amount` richer while its two
      records cancel out, so a consistent ledger stops being consistent. */
  lemma SelfTransferMintsMoney(b: Bank, number: string, amount: int, outReference: string, inReference: string)
    requires Consistent(b)
    requires number in b.accounts && amount <= b.accounts[number].balance
    requires FreshReference(b.log, outReference) && FreshReference(b.log, inReference)
    requires outReference != inReference
    requires amount != 0
    ensures var r := TransferMoney(b, number, number, amount, outReference, inReference);
      && r.result.Ok?
      && r.bank.accounts[number].balance == b.accounts[number].balance + amount
      && !Consistent(r.bank)
  {
    var r := TransferMoney(b, number, number, amount, outReference, inReference);
    var out := r.bank.log[|b.log|];
    var inn := r.bank.log[|b.log| + 1];
    var mid := b.log + [out];
    assert r.bank.log == mid + [inn];
    NetAppend(b.log, out, number);
    NetAppend(mid, inn, number);
    assert Net(r.bank.log, number) == b.accounts[number].balance;
  }

  /** No operation reachable from the forms drives a balance below zero; the
      forms guarantee positive amounts (min_value=1.0). */
  lemma OpenAccountKeepsNonNegative(
    b: Bank, owner: nat, accountType: AccountType, holder: string, phone: string,
    address: string, termsAccepted: bool, initialDeposit: int, draw: int, reference: string)
    requires AccountNumberLow <= draw <= AccountNumberHigh
    requires NonNegative(b)
    ensures NonNegative(OpenAccount(b, owner, accountType, holder, phone, address, termsAccepted, initialDeposit, draw, reference).bank)
  {
  }

  lemma DepositKeepsNonNegative(b: Bank, number: string, amount: int, description: string, reference: string)
    requires NonNegative(b)
    requires FreshReference(b.log, reference)
    requires amount > 0
    ensures NonNegative(MakeDeposit(b, number, amount, description, reference).bank)
  {
  }

  lemma WithdrawalKeepsNonNegative(b: Bank, number: string, amount: int, description: string, reference: string)
    requires NonNegative(b)
    requires FreshReference(b.log, reference)
    ensures NonNegative(MakeWithdrawal(b, number, amount, description, reference).bank)
  {
  }

  lemma TransferKeepsNonNegative(b: Bank, from: string, to: string, amount: int, outReference: string, inReference: string)
    requires NonNegative(b)
    requires amount > 0
    ensures NonNegative(TransferForm(b, from, to, amount, outReference, inReference).bank)
  {
  }

  /** Depositing and then withdrawing the same amount restores every account
      exactly and adds exactly two records: the deposit and the withdrawal, each
      carrying the balance it produced. */
  lemma DepositThenWithdrawRestores(
    b: Bank, number: string, amount: int, description1: string, reference1: string,
    description2: string, reference2: string)
    requires number in b.accounts && b.accounts[number].balance >= 0
    requires FreshReference(b.log, reference1) && FreshReference(b.log, reference2)
    requires reference1 != reference2
    ensures var d := MakeDeposit(b, number, amount, description1, reference1);
      && d.result.Ok?
      && FreshReference(d.bank.log, reference2)
      && var w := MakeWithdrawal(d.bank, number, amount, description2, reference2);
      && w.result.Ok?
      && w.bank.accounts == b.accounts
      && w.bank.log == b.log + [
           Txn(number, Deposit, amount, b.accounts[number].balance + amount, description1, reference1),
           Txn(number, Withdrawal, amount, b.accounts[number].balance, description2, reference2)]
  {
  }
}
