# Bank account ledger — a verified model

This project models the bookkeeping core of a command-line bank-account
simulator. Each account has a holder name, an account number, an integer
balance, a closed flag and an append-only log of transactions. Three
operations change an account:

- a deposit adds funds;
- a withdrawal removes funds if there is enough;
- closing is terminal. It logs the closure, zeroes the balance, sets the
  flag and appends " (Closed)" to the holder name.

A successful operation logs a `completed` record. A rejected amount logs a
`failed` record. An attempt on a closed account logs nothing and changes
nothing. A session's accounts sit in a registry list. The registry offers
creation, lookup by exact account number and a case-insensitive substring
search.

Layout:

- `ledger.dfy` (module `Ledger`) holds the values. It defines the
  transaction record, an account snapshot and the operations as pure step
  functions. It also defines `Run`, which replays a sequence of operations,
  and `Net`, the balance movement a log accounts for. The lemmas about
  whole sessions live here.
- `account.dfy` (module `Accounts`) holds the class `BankAccount`. Its
  fields change in place. `Deposit`, `Withdraw` and `CloseAccount` state
  their exact effect on the fields and the log and are each proved to match
  their step function in `Ledger`; `RecordTransaction` states its append
  directly.
- `registry.dfy` (module `Registry`) holds the class `AccountRegistry`.
  Alongside it are the lookup, the search filter and ASCII lower-casing.

Behaviour of the program that the model keeps as it is:

- A deposit or withdrawal on a closed account returns before logging
  anything (main.py:72-74, 84-86). It changes nothing and appends no
  record.
- The starting balance is not checked (main.py:147-151), so an account can
  start negative. A failed deposit or withdrawal records the amount asked
  for, which may be zero or negative. A closure records the balance before
  closing, which may be negative. Non-negativity of the balance is
  therefore proved to be preserved, not established
  (`Ledger.RunKeepsBalanceNonNegative`). The log explains the balance
  exactly when the start was not negative (`Ledger.OpenedBalanced`).

## Model

| member | source | states |
|---|---|---|
| Accounts.BankAccount.constructor | main.py:31-45 | A new account is open, has an empty log, and keeps the given name, number and unchecked starting balance |
| Accounts.BankAccount.RecordTransaction | main.py:51-69 | Appends exactly one record with the given kind, sender, receiver, amount and status at the end of the log, returns that record, and changes no other field |
| Accounts.BankAccount.Deposit | main.py:71-81 | On a closed account nothing changes. For amount <= 0 the balance is unchanged and one failed deposit record (sender none, receiver the holder, that amount) is appended. Otherwise the balance rises by exactly amount and one completed deposit record is appended. Name and closed flag never change, a non-negative balance stays non-negative, and the new state is DepositStep of the old |
| Accounts.BankAccount.Withdraw | main.py:83-97 | On a closed account nothing changes. If amount <= 0 or amount > balance, the balance is unchanged and one failed withdraw record (sender the holder, receiver none) is appended. If 0 < amount <= balance, the balance falls by exactly amount and one completed withdraw record is appended. A non-negative balance stays non-negative, and the new state is WithdrawStep of the old |
| Accounts.BankAccount.CloseAccount | main.py:108-116 | On an open account it appends one completed close record carrying the pre-close name and balance, then sets the balance to 0, sets the closed flag and appends " (Closed)" to the name. On a closed account it changes nothing. Afterwards the account is always closed, and the new state is CloseStep of the old |
| Registry.AccountRegistry.constructor | main.py:135 | The session starts with no accounts |
| Registry.AccountRegistry.CreateAccount | main.py:151-154 | Appends a fresh account at the end of the list. Its state is Opened(name, number, balance). Its log holds one completed deposit of the starting balance if that is > 0, and is empty otherwise |
| Registry.FindAccountByNumber | main.py:119-123 | Returns None iff no account has that number. Otherwise it returns the account at the first index in list order whose number equals the key |
| Registry.LowerChar | main.py:196-197 | An ASCII upper-case letter becomes the matching lower-case letter, every other character is kept, and the result is never an ASCII upper-case letter |
| Registry.Lower | main.py:196-197 | The lowered string has the same length and no ASCII upper-case letter. Each ASCII upper-case letter becomes its lower-case letter, and every other character is kept |
| Registry.Contains | main.py:197 | Python's substring test `needle in hay`: the empty string and every prefix of hay occur in hay, and an occurring needle is never longer than hay |
| Registry.LowerIdempotent | main.py:196-197 | Lowering twice is lowering once |
| Registry.Search | main.py:197 | Every account found is in the list and matches, that is the lowered term occurs in its lowered name or lowered number. Every matching account in the list is found, and no more accounts are found than listed |
| Registry.SearchConcat | main.py:197 | The filter preserves order: searching xs + ys gives the search of xs followed by the search of ys |
| Registry.SearchIdempotent | main.py:197 | Searching the result again with the same term gives the same result |
| Registry.SearchEmptyTerm | main.py:196-197 | An empty term lists every account, in order |
| Registry.SearchCaseInsensitive | main.py:196-197 | Two terms that lower to the same string find the same accounts in the same order, so the case of the term never matters |
| Ledger.ApplyAccounted | main.py:71-115 | One operation appends at most one record, leaves earlier records untouched, and moves the balance by exactly the amount that record accounts for |
| Ledger.RunOnClosed | main.py:71-111 | On a closed account every sequence of deposits, withdrawals and closes changes nothing and appends no record |
| Ledger.RunKeepsBalanceNonNegative | main.py:71-115 | If the balance is >= 0 before a sequence of operations, it is >= 0 after it |
| Ledger.RunAppendOnly | main.py:51-115 | Over any sequence of operations the log only grows at the end, earlier entries stay unchanged, and each operation adds at most one entry |
| Ledger.RunKeepsIdentity | main.py:108-115 | The account number never changes, and the closed flag never returns to false |
| Ledger.RunAccounted | main.py:71-115 | The gap between the balance and Net(log) never changes: every balance change is written in the log |
| Ledger.OpenedBalanced | main.py:151-154 | A new account's log accounts for its balance exactly when the starting balance is >= 0 |
| Ledger.SessionInvariant | main.py:138-156 | An account created with a balance >= 0 stays balanced and non-negative through any sequence of operations |
| Ledger.RunClosedZero | main.py:71-115 | If a closed account has balance 0 before a sequence of operations, then whenever the account is closed after it, its balance is 0: a close anywhere in the sequence zeroes the balance and nothing later moves it |
| Ledger.SessionClosedZero | main.py:138-156 | For any starting balance, an account that a session has closed ends with balance 0 |
| Ledger.CloseMidSession | main.py:71-115 | Deposit 5 into an account opened with 10, close it, then try to withdraw 3: the balance ends at 0 |
| Ledger.CloseIdempotent | main.py:108-111 | Closing twice is the same as closing once |
| Ledger.RunAfterClose | main.py:108-115 | After a close, nothing changes the account. If it was open before the close, its balance stays 0 |
| Ledger.AliceSession | main.py:71-115 | Worked session: open "Alice" with 100, deposit 50, withdraw 200 (refused), then close. The result has balance 0, is closed, is named "Alice (Closed)" and has four records in order |

## Left out

- All console output (`print`) and prompting (`input`). This includes the
  `main_menu` loop and the confirmation prompt of `deactivate_account`.
  Their only effect on state is through the operations modelled here.
- The `uuid4` identifiers of accounts and transactions and the UTC
  timestamps (`created_at`, `timestamp`). They come from foreign,
  nondeterministic calls and have no effect on the bookkeeping.
- Generation of a random account number and parsing of integer input with
  retry. The holder name, account number and starting balance are
  parameters of `CreateAccount`.
- `__str__` of both classes, `show_transactions` and `list_accounts_brief`.
  These only format text for display.
- Python's Unicode `str.lower`. The model lowers ASCII letters only.
- The module-level global `accounts` list is the `accounts` field of an
  explicit `AccountRegistry` object. `FindAccountByNumber` takes the list
  as a parameter, as `find_account_by_number` does (main.py:119). The
  search is a list comprehension inside the menu loop that reads the global
  list (main.py:197); the model lifts it out as the function `Search` over
  an explicit sequence of accounts.
- `.strip()` of the search term and of typed account numbers. It belongs to
  input handling.
