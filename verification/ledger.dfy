/** The bookkeeping of one bank account as pure values: the transaction
    record, a snapshot of an account's state, and the three operations that
    change it (deposit, withdraw, close) as step functions. The class in
    account.dfy is proved to follow these steps exactly; the lemmas here say
    what any sequence of operations does to an account. */
module Ledger {

  datatype Option<T> = None | Some(value: T)

  /** The `type` string of a transaction: "deposit", "withdraw" or "close". */
  datatype Kind = Deposit | Withdraw | Close

  /** The `status` string of a transaction: "completed" or "failed". */
  datatype Status = Completed | Failed

  /** One entry of an account's log. The uuid and the UTC timestamp the
      program attaches to each record are not modelled. The amount is the
      amount asked for, so a failed deposit of -5 records -5. */
  datatype Transaction = Transaction(
    kind: Kind,
    sender: Option<string>,
    receiver: Option<string>,
    amount: int,
    status: Status)

  /** What the account keeps about itself: holder name, account number,
      balance, the closed flag and the log in insertion order. */
  datatype Account = Account(
    name: string,
    number: string,
    balance: int,
    closed: bool,
    log: seq<Transaction>)

  /** Appended to the holder name when an account is closed. */
  const ClosedMarker: string := " (Closed)"

  /** A deposit record: no sender, the holder as receiver. */
  function DepositRecord(holder: string, amount: int, status: Status): Transaction
  {
    Transaction(Deposit, None, Some(holder), amount, status)
  }

  /** A withdrawal record: the holder as sender, no receiver. */
  function WithdrawRecord(holder: string, amount: int, status: Status): Transaction
  {
    Transaction(Withdraw, Some(holder), None, amount, status)
  }

  /** The record of a closure; it always completes. */
  function CloseRecord(holder: string, amount: int): Transaction
  {
    Transaction(Close, Some(holder), None, amount, Completed)
  }

  /** A freshly created account: open, with the given starting balance, whose
      log holds one completed deposit of that balance when it is positive and
      is empty otherwise. The starting balance is not checked. */
  function Opened(holder: string, number: string, balance: int): Account
  {
    Account(holder, number, balance, false,
            if balance > 0 then [DepositRecord(holder, balance, Completed)] else [])
  }

  function DepositStep(s: Account, amount: int): Account
  {
    if s.closed then s
    else if amount <= 0 then s.(log := s.log + [DepositRecord(s.name, amount, Failed)])
    else s.(balance := s.balance + amount,
            log := s.log + [DepositRecord(s.name, amount, Completed)])
  }

  function WithdrawStep(s: Account, amount: int): Account
  {
    if s.closed then s
    else if amount <= 0 || amount > s.balance then
      s.(log := s.log + [WithdrawRecord(s.name, amount, Failed)])
    else s.(balance := s.balance - amount,
            log := s.log + [WithdrawRecord(s.name, amount, Completed)])
  }

  function CloseStep(s: Account): Account
  {
    if s.closed then s
    else Account(s.name + ClosedMarker, s.number, 0, true,
                 s.log + [CloseRecord(s.name, s.balance)])
  }

  /** The operations a user can run on an account from the menu. */
  datatype Op = DepositOp(amount: int) | WithdrawOp(amount: int) | CloseOp

  function Apply(s: Account, op: Op): Account
  {
    match op
    case DepositOp(amount) => DepositStep(s, amount)
    case WithdrawOp(amount) => WithdrawStep(s, amount)
    case CloseOp => CloseStep(s)
  }

  /** The account after running `ops` on `s`, first to last. */
  function Run(s: Account, ops: seq<Op>): Account
    decreases |ops|
  {
    if ops == [] then s else Run(Apply(s, ops[0]), ops[1..])
  }

  /** How much a record says the balance moved: completed deposits add,
      completed withdrawals and closures take away, failed records move
      nothing. */
  function Effect(t: Transaction): int
  {
    if t.status == Failed then 0
    else match t.kind
      case Deposit => t.amount
      case Withdraw => -t.amount
      case Close => -t.amount
  }

  /** The balance movement a whole log accounts for. */
  function Net(log: seq<Transaction>): int
    decreases |log|
  {
    if log == [] then 0 else Net(log[..|log| - 1]) + Effect(log[|log| - 1])
  }

  /** The log explains the balance exactly. */
  predicate Balanced(s: Account)
  {
    s.balance == Net(s.log)
  }

  lemma NetAppend(log: seq<Transaction>, t: Transaction)
    ensures Net(log + [t]) == Net(log) + Effect(t)
  {
    assert (log + [t])[..|log|] == log;
  }

  /** One operation moves the balance by exactly what the record it appends
      says, and appends at most one record. */
  lemma ApplyAccounted(s: Account, op: Op)
    ensures Apply(s, op).balance - Net(Apply(s, op).log) == s.balance - Net(s.log)
    ensures |s.log| <= |Apply(s, op).log| <= |s.log| + 1
    ensures Apply(s, op).log[..|s.log|] == s.log
  {
    var r := Apply(s, op);
    if r.log != s.log {
      NetAppend(s.log, r.log[|s.log|]);
      assert r.log == s.log + [r.log[|s.log|]];
    }
  }

  /** A closed account is final: no operation changes any part of it, and in
      particular none appends a record. */
  lemma {:induction false} RunOnClosed(s: Account, ops: seq<Op>)
    requires s.closed
    ensures Run(s, ops) == s
    decreases |ops|
  {
    if ops != [] {
      assert Apply(s, ops[0]) == s;
      RunOnClosed(s, ops[1..]);
    }
  }

  /** A non-negative balance stays non-negative, whatever is run. The starting
      balance itself is not checked on creation, so this is preserved, not
      established. */
  lemma {:induction false} RunKeepsBalanceNonNegative(s: Account, ops: seq<Op>)
    requires s.balance >= 0
    ensures Run(s, ops).balance >= 0
    decreases |ops|
  {
    if ops != [] {
      RunKeepsBalanceNonNegative(Apply(s, ops[0]), ops[1..]);
    }
  }

  /** The log is append-only: earlier entries stay as they were, and each
      operation adds at most one entry. */
  lemma {:induction false} RunAppendOnly(s: Account, ops: seq<Op>)
    ensures |s.log| <= |Run(s, ops).log| <= |s.log| + |ops|
    ensures Run(s, ops).log[..|s.log|] == s.log
    decreases |ops|
  {
    if ops != [] {
      var s' := Apply(s, ops[0]);
      ApplyAccounted(s, ops[0]);
      RunAppendOnly(s', ops[1..]);
      assert Run(s', ops[1..]).log[..|s'.log|][..|s.log|] == s'.log[..|s.log|];
    }
  }

  /** The account number never changes and the closed flag never returns to
      false. */
  lemma {:induction false} RunKeepsIdentity(s: Account, ops: seq<Op>)
    ensures Run(s, ops).number == s.number
    ensures s.closed ==> Run(s, ops).closed
    decreases |ops|
  {
    if ops != [] {
      RunKeepsIdentity(Apply(s, ops[0]), ops[1..]);
    }
  }

  /** Every balance change is written down: the gap between the balance and
      what the log accounts for never moves. */
  lemma {:induction false} RunAccounted(s: Account, ops: seq<Op>)
    ensures Run(s, ops).balance - Net(Run(s, ops).log) == s.balance - Net(s.log)
    decreases |ops|
  {
    if ops != [] {
      ApplyAccounted(s, ops[0]);
      RunAccounted(Apply(s, ops[0]), ops[1..]);
    }
  }

  /** A new account's log explains its balance exactly when the starting
      balance is not negative: a negative start is never written down. */
  lemma OpenedBalanced(holder: string, number: string, balance: int)
    ensures Balanced(Opened(holder, number, balance)) <==> balance >= 0
  {
    var s := Opened(holder, number, balance);
    if balance > 0 {
      NetAppend([], s.log[0]);
      assert [] + [s.log[0]] == s.log;
    }
  }

  /** So an account created with a non-negative balance stays balanced and
      non-negative through any sequence of operations. */
  lemma SessionInvariant(holder: string, number: string, balance: int, ops: seq<Op>)
    requires balance >= 0
    ensures Balanced(Run(Opened(holder, number, balance), ops))
    ensures Run(Opened(holder, number, balance), ops).balance >= 0
  {
    OpenedBalanced(holder, number, balance);
    RunAccounted(Opened(holder, number, balance), ops);
    RunKeepsBalanceNonNegative(Opened(holder, number, balance), ops);
  }

  /** A closed account has a zero balance and keeps it: once a run closes
      the account, at any point, its balance is 0 from then on. */
  lemma {:induction false} RunClosedZero(s: Account, ops: seq<Op>)
    requires s.closed ==> s.balance == 0
    ensures Run(s, ops).closed ==> Run(s, ops).balance == 0
    decreases |ops|
  {
    if ops != [] {
      RunClosedZero(Apply(s, ops[0]), ops[1..]);
    }
  }

  /** For any starting balance, a session that has closed the account ends
      with a zero balance. */
  lemma SessionClosedZero(holder: string, number: string, balance: int, ops: seq<Op>)
    ensures Run(Opened(holder, number, balance), ops).closed ==>
      Run(Opened(holder, number, balance), ops).balance == 0
  {
    RunClosedZero(Opened(holder, number, balance), ops);
  }

  /** The case from the middle of a session: deposit, close, then a refused
      withdrawal leaves the balance at 0. */
  lemma CloseMidSession(holder: string, number: string)
    ensures Run(Opened(holder, number, 10), [DepositOp(5), CloseOp, WithdrawOp(3)]).balance == 0
  {
    SessionClosedZero(holder, number, 10, [DepositOp(5), CloseOp, WithdrawOp(3)]);
    RunKeepsIdentity(CloseStep(DepositStep(Opened(holder, number, 10), 5)), [WithdrawOp(3)]);
  }

  /** Closing twice is closing once. */
  lemma CloseIdempotent(s: Account)
    ensures CloseStep(CloseStep(s)) == CloseStep(s)
  {
  }

  /** After closing an open account, it stays closed with a zero balance
      whatever is run on it. */
  lemma RunAfterClose(s: Account, ops: seq<Op>)
    ensures Run(CloseStep(s), ops) == CloseStep(s)
    ensures Run(CloseStep(s), ops).closed
    ensures !s.closed ==> Run(CloseStep(s), ops).balance == 0
  {
    RunOnClosed(CloseStep(s), ops);
  }

  /** The worked session: open "Alice" with 100, deposit 50, withdraw 200
      (refused), close. */
  lemma AliceSession()
    ensures var s := Run(Opened("Alice", "A1", 100), [DepositOp(50), WithdrawOp(200), CloseOp]);
      && s.balance == 0 && s.closed && s.name == "Alice (Closed)"
      && s.log == [DepositRecord("Alice", 100, Completed),
                   DepositRecord("Alice", 50, Completed),
                   WithdrawRecord("Alice", 200, Failed),
                   CloseRecord("Alice", 150)]
  {
    var s0 := Opened("Alice", "A1", 100);
    var s1 := DepositStep(s0, 50);
    assert s1.balance == 150;
    var s2 := WithdrawStep(s1, 200);
    assert s2 == s1.(log := s1.log + [WithdrawRecord("Alice", 200, Failed)]);
    var s3 := CloseStep(s2);
    assert Run(s0, [DepositOp(50), WithdrawOp(200), CloseOp]) == Run(s1, [WithdrawOp(200), CloseOp]);
    assert Run(s1, [WithdrawOp(200), CloseOp]) == Run(s2, [CloseOp]);
    assert Run(s2, [CloseOp]) == Run(s3, []);
  }
}
