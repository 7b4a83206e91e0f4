/** The accounts created in a session, in creation order, with the two ways
    the menu looks accounts up: by exact account number, and by a
    case-insensitive substring of the holder name or the account number. */
module Registry {
  import opened Ledger
  import opened Accounts

  class AccountRegistry {
    var accounts: seq<BankAccount>

    constructor ()
      ensures accounts == []
    {
      accounts := [];
    }

    /** The bookkeeping of account creation: the new account goes at the end
        of the list, and its log gets one completed deposit of the starting
        balance only when that balance is positive. The holder name, number
        and starting balance are what the prompts would have read. */
    method CreateAccount(name: string, accountNumber: string, balance: int)
      returns (acc: BankAccount)
      modifies this
      ensures fresh(acc)
      ensures accounts == old(accounts) + [acc]
      ensures acc.Snapshot() == Opened(name, accountNumber, balance)
      ensures balance > 0 ==> acc.transactions == [DepositRecord(name, balance, Completed)]
      ensures balance <= 0 ==> acc.transactions == []
    {
      acc := new BankAccount(name, accountNumber, balance);
      accounts := accounts + [acc];
      if balance > 0 {
        var _ := acc.RecordTransaction(Kind.Deposit, None, Some(acc.name), balance, Completed);
      }
    }
  }

  /** Scans the list in order and returns the first account whose number is
      exactly `accountNumber`, or None when no account has it. */
  method FindAccountByNumber(accountNumber: string, accounts: seq<BankAccount>)
    returns (found: Option<BankAccount>)
    ensures found == None <==>
      forall i :: 0 <= i < |accounts| ==> accounts[i].accountNumber != accountNumber
    ensures found != None ==>
      exists i :: 0 <= i < |accounts| && accounts[i] == found.value &&
        accounts[i].accountNumber == accountNumber &&
        forall j :: 0 <= j < i ==> accounts[j].accountNumber != accountNumber
  {
    for k := 0 to |accounts|
      invariant forall j :: 0 <= j < k ==> accounts[j].accountNumber != accountNumber
    {
      if accounts[k].accountNumber == accountNumber {
        return Some(accounts[k]);
      }
    }
    return None;
  }

  /** ASCII lower-casing of one character. */
  function LowerChar(c: char): (d: char)
    ensures !('A' <= d <= 'Z')
    ensures !('A' <= c <= 'Z') ==> d == c
    ensures 'A' <= c <= 'Z' ==> d as int - c as int == 'a' as int - 'A' as int
  {
    if 'A' <= c <= 'Z' then (c as int - 'A' as int + 'a' as int) as char else c
  }

  /** ASCII lower-casing of a string, character by character. */
  function Lower(s: string): (r: string)
    ensures |r| == |s|
    ensures forall i :: 0 <= i < |s| ==> !('A' <= r[i] <= 'Z')
    ensures forall i :: 0 <= i < |s| && !('A' <= s[i] <= 'Z') ==> r[i] == s[i]
    ensures forall i :: 0 <= i < |s| && 'A' <= s[i] <= 'Z' ==>
      r[i] as int == s[i] as int + ('a' as int - 'A' as int)
  {
    seq(|s|, i requires 0 <= i < |s| => LowerChar(s[i]))
  }

  lemma LowerIdempotent(s: string)
    ensures Lower(Lower(s)) == Lower(s)
  {
  }

  /** Python's `needle in hay` on strings: `needle` occurs as a contiguous
      piece of `hay`; the empty string occurs in every string. */
  predicate Contains(hay: string, needle: string)
    ensures Contains(hay, needle) ==> |needle| <= |hay|
    ensures needle <= hay ==> Contains(hay, needle)
    ensures needle == [] ==> Contains(hay, needle)
  {
    // Witness for the prefix postcondition only; not part of the definition.
    assert needle <= hay ==> OccursAt(hay, needle, 0);
    exists i | 0 <= i <= |hay| :: OccursAt(hay, needle, i)
  }

  predicate OccursAt(hay: string, needle: string, i: int)
  {
    0 <= i && i + |needle| <= |hay| && hay[i..i + |needle|] == needle
  }

  /** The search condition: the lowered term occurs in the lowered holder name
      or in the lowered account number. */
  predicate Matches(term: string, a: BankAccount)
    reads a
  {
    Contains(Lower(a.name), Lower(term)) || Contains(Lower(a.accountNumber), Lower(term))
  }

  /** The menu's search: the accounts that match, in list order. */
  function Search(term: string, accounts: seq<BankAccount>): (found: seq<BankAccount>)
    reads accounts
    ensures |found| <= |accounts|
    ensures forall i :: 0 <= i < |found| ==> found[i] in accounts && Matches(term, found[i])
    ensures forall i :: 0 <= i < |accounts| && Matches(term, accounts[i]) ==> accounts[i] in found
    decreases |accounts|
  {
    if accounts == [] then []
    else if Matches(term, accounts[0]) then [accounts[0]] + Search(term, accounts[1..])
    else Search(term, accounts[1..])
  }

  /** Searching is order-preserving: searching a concatenation is
      concatenating the searches. */
  lemma {:induction false} SearchConcat(term: string, xs: seq<BankAccount>, ys: seq<BankAccount>)
    ensures Search(term, xs + ys) == Search(term, xs) + Search(term, ys)
    decreases |xs|
  {
    if xs != [] {
      assert (xs + ys)[0] == xs[0] && (xs + ys)[1..] == xs[1..] + ys;
      SearchConcat(term, xs[1..], ys);
    } else {
      assert xs + ys == ys;
    }
  }

  /** Searching the result again finds the same accounts in the same order. */
  lemma {:induction false} SearchIdempotent(term: string, accounts: seq<BankAccount>)
    ensures Search(term, Search(term, accounts)) == Search(term, accounts)
    decreases |accounts|
  {
    if accounts != [] {
      SearchIdempotent(term, accounts[1..]);
    }
  }

  /** An empty term (the user just pressed Enter) lists every account. */
  lemma {:induction false} SearchEmptyTerm(accounts: seq<BankAccount>)
    ensures Search("", accounts) == accounts
    decreases |accounts|
  {
    if accounts != [] {
      assert OccursAt(Lower(accounts[0].name), Lower(""), 0);
      SearchEmptyTerm(accounts[1..]);
    }
  }

  /** The search ignores case: terms that lower to the same string find the
      same accounts in the same order. */
  lemma {:induction false} SearchCaseInsensitive(term: string, term': string, accounts: seq<BankAccount>)
    requires Lower(term) == Lower(term')
    ensures Search(term, accounts) == Search(term', accounts)
    decreases |accounts|
  {
    if accounts != [] {
      assert Matches(term, accounts[0]) == Matches(term', accounts[0]);
      SearchCaseInsensitive(term, term', accounts[1..]);
    }
  }
}
