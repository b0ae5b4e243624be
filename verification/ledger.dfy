/** One account's ledger: the balance, the append-only transaction list and
    the invariant tying the two together. Amounts are exact reals. */
module Ledger {

  /** The `type` field of a transaction record. */
  datatype Kind = InitialDeposit | Deposit | Withdrawal

  /** A transaction record: its kind, the amount moved, an opaque timestamp
      and the balance of the account right after it. */
  datatype Transaction = Transaction(kind: Kind, amount: real, date: string, balance: real)

  /** An account record: the stored password, the current balance and the
      transactions in insertion (chronological) order. */
  datatype Account = Account(password: string, balance: real, transactions: seq<Transaction>)

  /** What a transaction does to the balance. */
  function Signed(t: Transaction): real {
    if t.kind == Withdrawal then -t.amount else t.amount
  }

  /** The balance obtained by replaying `txs` from zero. */
  function Net(txs: seq<Transaction>): real {
    if |txs| == 0 then 0.0 else Net(txs[..|txs| - 1]) + Signed(txs[|txs| - 1])
  }

  /** The sum of the amounts of the transactions of kind `k`. */
  function Total(txs: seq<Transaction>, k: Kind): real {
    if |txs| == 0 then 0.0
    else Total(txs[..|txs| - 1], k) + (if txs[|txs| - 1].kind == k then txs[|txs| - 1].amount else 0.0)
  }

  /** Replaying a ledger is the same as adding up the credits and
      subtracting the withdrawals. */
  lemma {:induction false} NetIsTotals(txs: seq<Transaction>)
    ensures Net(txs) == Total(txs, InitialDeposit) + Total(txs, Deposit) - Total(txs, Withdrawal)
  {
    if |txs| > 0 {
      NetIsTotals(txs[..|txs| - 1]);
    }
  }

  /** The balance just before entry `i`: zero before the first entry,
      otherwise the stamp of entry `i - 1`. */
  function Before(txs: seq<Transaction>, i: int): real
    requires 0 <= i <= |txs|
  {
    if i == 0 then 0.0 else txs[i - 1].balance
  }

  /** Every transaction is stamped with the balance before it plus its own
      effect. */
  predicate Stamped(txs: seq<Transaction>) {
    forall i :: 0 <= i < |txs| ==> txs[i].balance == Before(txs, i) + Signed(txs[i])
  }

  /** In a stamped ledger the last stamp is the replayed balance. */
  lemma {:induction false} LastStampIsNet(txs: seq<Transaction>)
    requires |txs| > 0 && Stamped(txs)
    ensures txs[|txs| - 1].balance == Net(txs)
  {
    var n := |txs|;
    var init := txs[..n - 1];
    assert Net(txs) == Net(init) + Signed(txs[n - 1]);
    assert txs[n - 1].balance == Before(txs, n - 1) + Signed(txs[n - 1]);
    if n > 1 {
      forall i | 0 <= i < |init|
        ensures init[i].balance == Before(init, i) + Signed(init[i])
      {
        assert init[i] == txs[i];
        assert txs[i].balance == Before(txs, i) + Signed(txs[i]);
      }
      LastStampIsNet(init);
    } else {
      assert init == [];
    }
  }

  /** The ledger invariant the account operations keep: the list starts
      with the one initial deposit, every amount is positive, every stamp is
      the running balance and is never negative, and the account balance is
      the stamp of the last entry. */
  predicate WellFormed(a: Account) {
    var txs := a.transactions;
    && |txs| > 0
    && txs[0].kind == InitialDeposit
    && (forall i :: 0 < i < |txs| ==> txs[i].kind != InitialDeposit)
    && (forall i :: 0 <= i < |txs| ==> txs[i].amount > 0.0 && txs[i].balance >= 0.0)
    && Stamped(txs)
    && a.balance == txs[|txs| - 1].balance
  }

  /** A fresh account holding a single initial-deposit entry. */
  function Open(password: string, amount: real, date: string): (a: Account)
    requires amount > 0.0
    ensures WellFormed(a)
    ensures a.password == password && a.balance == amount
    ensures a.transactions == [Transaction(InitialDeposit, amount, date, amount)]
  {
    var t := Transaction(InitialDeposit, amount, date, amount);
    assert Signed(t) == amount;
    Account(password, amount, [t])
  }

  /** The account after appending `t`, whose stamp becomes the new balance. */
  function Append(a: Account, t: Transaction): Account {
    Account(a.password, t.balance, a.transactions + [t])
  }

  /** Appending a non-initial entry with a positive amount, stamped with the
      old balance plus its effect, keeps the invariant when that stamp is not
      negative. */
  lemma {:induction false} AppendKeepsWellFormed(a: Account, t: Transaction)
    requires WellFormed(a)
    requires t.kind != InitialDeposit && t.amount > 0.0
    requires t.balance == a.balance + Signed(t) && t.balance >= 0.0
    ensures WellFormed(Append(a, t))
  {
    var txs, txs' := a.transactions, a.transactions + [t];
    forall i | 0 <= i < |txs'|
      ensures txs'[i].balance == Before(txs', i) + Signed(txs'[i])
    {
      if i < |txs| {
        assert txs'[i] == txs[i];
        assert txs[i].balance == Before(txs, i) + Signed(txs[i]);
      }
    }
  }

  /** A credit of `amount` recorded as a `Deposit` entry. */
  function Credit(a: Account, amount: real, date: string): (r: Account)
    ensures r.password == a.password
    ensures r.balance == a.balance + amount
    ensures r.transactions == a.transactions + [Transaction(Deposit, amount, date, r.balance)]
  {
    Append(a, Transaction(Deposit, amount, date, a.balance + amount))
  }

  /** A debit of `amount` recorded as a `Withdrawal` entry. */
  function Debit(a: Account, amount: real, date: string): (r: Account)
    ensures r.password == a.password
    ensures r.balance == a.balance - amount
    ensures r.transactions == a.transactions + [Transaction(Withdrawal, amount, date, r.balance)]
  {
    Append(a, Transaction(Withdrawal, amount, date, a.balance - amount))
  }

  /** A positive credit keeps the ledger invariant. */
  lemma CreditKeepsWellFormed(a: Account, amount: real, date: string)
    requires WellFormed(a) && amount > 0.0
    ensures WellFormed(Credit(a, amount, date))
  {
    var t := Transaction(Deposit, amount, date, a.balance + amount);
    AppendKeepsWellFormed(a, t);
    assert Credit(a, amount, date) == Append(a, t);
  }

  /** A positive debit that does not exceed the balance keeps the invariant. */
  lemma DebitKeepsWellFormed(a: Account, amount: real, date: string)
    requires WellFormed(a) && 0.0 < amount <= a.balance
    ensures WellFormed(Debit(a, amount, date))
  {
    var t := Transaction(Withdrawal, amount, date, a.balance - amount);
    assert Signed(t) == -amount;
    AppendKeepsWellFormed(a, t);
    assert Debit(a, amount, date) == Append(a, t);
  }

  /** A debit undoes a credit of the same amount: the balance is restored and
      the ledger keeps both entries. */
  lemma DebitUndoesCredit(a: Account, amount: real, d1: string, d2: string)
    ensures Debit(Credit(a, amount, d1), amount, d2).balance == a.balance
    ensures Debit(Credit(a, amount, d1), amount, d2).transactions
         == a.transactions + [Transaction(Deposit, amount, d1, a.balance + amount),
                              Transaction(Withdrawal, amount, d2, a.balance)]
  {
  }

  /** Only the first entry of a well-formed ledger is an initial deposit. */
  lemma {:induction false} InitialTotalIsFirst(txs: seq<Transaction>)
    requires |txs| > 0 && txs[0].kind == InitialDeposit
    requires forall i :: 0 < i < |txs| ==> txs[i].kind != InitialDeposit
    ensures Total(txs, InitialDeposit) == txs[0].amount
  {
    if |txs| > 1 {
      var init := txs[..|txs| - 1];
      assert init[0] == txs[0];
      assert forall i :: 0 < i < |init| ==> init[i] == txs[i];
      InitialTotalIsFirst(init);
    } else {
      assert txs[..0] == [];
    }
  }

  /** The three balance facts of a well-formed account: it is never
      negative, it is the stamp of the last entry, and it equals the initial
      deposit plus all deposits minus all withdrawals. */
  lemma Balances(a: Account)
    requires WellFormed(a)
    ensures a.balance >= 0.0
    ensures a.balance == a.transactions[|a.transactions| - 1].balance
    ensures a.balance == a.transactions[0].amount
                         + Total(a.transactions, Deposit) - Total(a.transactions, Withdrawal)
  {
    var txs := a.transactions;
    LastStampIsNet(txs);
    NetIsTotals(txs);
    InitialTotalIsFirst(txs);
  }

  /** `s` in reverse order. */
  function Reverse<T>(s: seq<T>): (r: seq<T>)
    ensures |r| == |s|
    ensures forall i :: 0 <= i < |s| ==> r[i] == s[|s| - 1 - i]
  {
    if |s| == 0 then [] else [s[|s| - 1]] + Reverse(s[..|s| - 1])
  }

  /** Reversing twice gives the original order back. */
  lemma ReverseInvolutive<T>(s: seq<T>)
    ensures Reverse(Reverse(s)) == s
  {
  }

  /** The newest entry heads the reversed view of an extended ledger, followed
      by the reversed view of the old one. */
  lemma {:induction false} ReverseAppend<T>(s: seq<T>, x: T)
    ensures Reverse(s + [x]) == [x] + Reverse(s)
  {
    assert (s + [x])[..|s|] == s;
  }
}
