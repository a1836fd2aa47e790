/** The file-backed bank of bank.c: a global array of MAX_ACCOUNTS slots and
    a count of the slots in use. Adding appends with no bounds check and no
    duplicate check; deposit and balance lookup scan the used slots from the
    front and stop at the first number that matches. An account number is the
    C string's characters before its terminator; balances are whole units. */
module CBank {
  import opened Wrappers

  const MaxAccounts := 100

  /** `char accountNumber[20]`: room for 19 characters and the terminator. */
  const NumberCapacity := 20

  datatype CAccount = CAccount(number: string, balance: int)

  /** The first of the used slots `slots[..count]` holding `number`. */
  function FirstMatch(slots: seq<CAccount>, count: nat, number: string): (r: Option<nat>)
    requires count <= |slots|
    ensures r.Some? ==> r.value < count && slots[r.value].number == number
    ensures r.Some? ==> forall j :: 0 <= j < r.value ==> slots[j].number != number
    ensures r.None? ==> forall j :: 0 <= j < count ==> slots[j].number != number
  {
    if count == 0 then None
    else match FirstMatch(slots, count - 1, number)
      case Some(j) => Some(j)
      case None => if slots[count - 1].number == number then Some(count - 1) else None
  }

  /** The slots after depositMoney: the first used slot holding the number gains
      `amount`, which the code never checks, and every other slot is unchanged. */
  function Deposited(slots: seq<CAccount>, count: nat, number: string, amount: int): seq<CAccount>
    requires count <= |slots|
  {
    match FirstMatch(slots, count, number)
    case None => slots
    case Some(j) => slots[j := slots[j].(balance := slots[j].balance + amount)]
  }

  /** depositMoney credits the first matching slot and nothing else; with no
      matching slot the array is unchanged. */
  lemma DepositedTouchesFirstMatchOnly(slots: seq<CAccount>, count: nat, number: string, amount: int)
    requires count <= |slots|
    ensures |Deposited(slots, count, number, amount)| == |slots|
    ensures FirstMatch(slots, count, number).None? ==> Deposited(slots, count, number, amount) == slots
    ensures forall j :: FirstMatch(slots, count, number) == Some(j) ==>
      && Deposited(slots, count, number, amount)[j] == CAccount(number, slots[j].balance + amount)
      && (forall i :: 0 <= i < |slots| && i != j ==> Deposited(slots, count, number, amount)[i] == slots[i])
  {
  }

  /** addAccount does not reject a number already in use, and the later copy
      is shadowed: depositMoney stops at the earlier one and never credits it. */
  lemma DuplicateIsShadowed(slots: seq<CAccount>, count: nat, k: nat, amount: int)
    requires count < |slots|
    requires k < count
    ensures var added := slots[count := CAccount(slots[k].number, 0)];
      Deposited(added, count + 1, slots[k].number, amount)[count] == CAccount(slots[k].number, 0)
  {
    var added := slots[count := CAccount(slots[k].number, 0)];
    var j := FirstMatch(added, count + 1, slots[k].number);
    assert added[k].number == slots[k].number;
    assert j.Some? && j.value <= k;
  }

  /** An account added under a fresh number is the one depositMoney and
      checkBalance find afterwards. */
  lemma FreshAccountIsFound(slots: seq<CAccount>, count: nat, number: string)
    requires count < |slots|
    requires FirstMatch(slots, count, number).None?
    ensures FirstMatch(slots[count := CAccount(number, 0)], count + 1, number) == Some(count)
  {
  }

  /** addAccount: copies the number into slot `accountCount`, zeroes its
      balance and bumps the count. Neither the capacity of the array nor the
      capacity of the number field is checked, so both are the caller's
      obligation. */
  method AddAccount(accounts: array<CAccount>, accountCount: nat, number: string) returns (newCount: nat)
    requires accounts.Length == MaxAccounts
    requires accountCount < MaxAccounts
    requires |number| < NumberCapacity
    modifies accounts
    ensures newCount == accountCount + 1
    ensures accounts[..] == old(accounts[..])[accountCount := CAccount(number, 0)]
  {
    accounts[accountCount] := CAccount(number, 0);
    newCount := accountCount + 1;
  }

  /** depositMoney: scans the used slots from the front and credits the first
      one whose number matches; the count is not touched. */
  method DepositMoney(accounts: array<CAccount>, accountCount: nat, number: string, amount: int) returns (found: bool)
    requires accountCount <= accounts.Length
    modifies accounts
    ensures found <==> FirstMatch(old(accounts[..]), accountCount, number).Some?
    ensures accounts[..] == Deposited(old(accounts[..]), accountCount, number, amount)
  {
    var i := 0;
    while i < accountCount
      invariant 0 <= i <= accountCount
      invariant accounts[..] == old(accounts[..])
      invariant FirstMatch(accounts[..], i, number).None?
    {
      if accounts[i].number == number {
        assert FirstMatch(accounts[..], i + 1, number) == Some(i);
        assert FirstMatch(accounts[..], accountCount, number) == Some(i);
        accounts[i] := accounts[i].(balance := accounts[i].balance + amount);
        return true;
      }
      i := i + 1;
    }
    return false;
  }

  /** checkBalance: the balance of the first used slot holding the number, or
      None for "Account not found."; it reads the array and writes nothing. */
  method CheckBalance(accounts: array<CAccount>, accountCount: nat, number: string) returns (balance: Option<int>)
    requires accountCount <= accounts.Length
    ensures balance.Some? <==> exists j :: 0 <= j < accountCount && accounts[j].number == number
    ensures balance.Some? ==>
      var j := FirstMatch(accounts[..], accountCount, number).value;
      balance.value == accounts[j].balance
  {
    var i := 0;
    while i < accountCount
      invariant 0 <= i <= accountCount
      invariant forall j :: 0 <= j < i ==> accounts[j].number != number
    {
      if accounts[i].number == number {
        assert FirstMatch(accounts[..], i + 1, number) == Some(i);
        assert FirstMatch(accounts[..], accountCount, number) == Some(i);
        return Some(accounts[i].balance);
      }
      i := i + 1;
    }
    return None;
  }
}
