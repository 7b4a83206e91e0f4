/** A bank account as an object whose fields change in place. Each operation
    is proved to move the account exactly as the matching step of Ledger
    does, and states its effect on the fields and the log directly. */
module Accounts {
  import opened Ledger

  class BankAccount {
    var name: string
    const accountNumber: string
    var balance: int
    var transactions: seq<Transaction>
    var isClosed: bool

    /** The account's state as a Ledger value. */
    function Snapshot(): Account
      reads this
    {
      Account(name, accountNumber, balance, isClosed, transactions)
    }

    /** A new account starts open with an empty log; the starting balance is
        taken as given. */
    constructor (name: string, accountNumber: string, balance: int)
      ensures this.name == name && this.accountNumber == accountNumber
      ensures this.balance == balance && !isClosed && transactions == []
    {
      this.name := name;
      this.accountNumber := accountNumber;
      this.balance := balance;
      this.transactions := [];
      this.isClosed := false;
    }

    /** The single append point of the log: adds one record at the end and
        touches nothing else. */
    method RecordTransaction(kind: Kind, sender: Option<string>, receiver: Option<string>,
                             amount: int, status: Status)
      returns (t: Transaction)
      modifies this`transactions
      ensures t.kind == kind && t.sender == sender && t.receiver == receiver
      ensures t.amount == amount && t.status == status
      ensures transactions == old(transactions) + [t]
    {
      t := Transaction(kind, sender, receiver, amount, status);
      transactions := transactions + [t];
    }

    method Deposit(amount: int)
      modifies this
      ensures Snapshot() == DepositStep(old(Snapshot()), amount)
      ensures name == old(name) && isClosed == old(isClosed)
      ensures old(isClosed) ==> balance == old(balance) && transactions == old(transactions)
      ensures !old(isClosed) && amount <= 0 ==>
        balance == old(balance) &&
        transactions == old(transactions) + [DepositRecord(old(name), amount, Failed)]
      ensures !old(isClosed) && amount > 0 ==>
        balance == old(balance) + amount &&
        transactions == old(transactions) + [DepositRecord(old(name), amount, Completed)]
      ensures old(balance) >= 0 ==> balance >= 0
    {
      if isClosed {
        return;
      }
      if amount <= 0 {
        var _ := RecordTransaction(Kind.Deposit, None, Some(name), amount, Failed);
        return;
      }
      balance := balance + amount;
      var _ := RecordTransaction(Kind.Deposit, None, Some(name), amount, Completed);
    }

    method Withdraw(amount: int)
      modifies this
      ensures Snapshot() == WithdrawStep(old(Snapshot()), amount)
      ensures name == old(name) && isClosed == old(isClosed)
      ensures old(isClosed) ==> balance == old(balance) && transactions == old(transactions)
      ensures !old(isClosed) && (amount <= 0 || amount > old(balance)) ==>
        balance == old(balance) &&
        transactions == old(transactions) + [WithdrawRecord(old(name), amount, Failed)]
      ensures !old(isClosed) && 0 < amount <= old(balance) ==>
        balance == old(balance) - amount &&
        transactions == old(transactions) + [WithdrawRecord(old(name), amount, Completed)]
      ensures old(balance) >= 0 ==> balance >= 0
    {
      if isClosed {
        return;
      }
      if amount <= 0 {
        var _ := RecordTransaction(Kind.Withdraw, Some(name), None, amount, Failed);
        return;
      }
      if amount > balance {
        var _ := RecordTransaction(Kind.Withdraw, Some(name), None, amount, Failed);
        return;
      }
      balance := balance - amount;
      var _ := RecordTransaction(Kind.Withdraw, Some(name), None, amount, Completed);
    }

    /** Terminal: logs the closure with the balance and name it had, then
        zeroes the balance, sets the flag and marks the name. A second call
        does nothing. */
    method CloseAccount()
      modifies this
      ensures Snapshot() == CloseStep(old(Snapshot()))
      ensures isClosed
      ensures old(isClosed) ==>
        name == old(name) && balance == old(balance) && transactions == old(transactions)
      ensures !old(isClosed) ==>
        balance == 0 && name == old(name) + ClosedMarker &&
        transactions == old(transactions) + [CloseRecord(old(name), old(balance))]
    {
      if isClosed {
        return;
      }
      var _ := RecordTransaction(Kind.Close, Some(name), None, balance, Completed);
      balance := 0;
      isClosed := true;
      name := name + ClosedMarker;
    }
  }
}
