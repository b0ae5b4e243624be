/** Runs of user actions: each action is one call into the banking core,
    and a rejected action leaves the state as it was. */
module Runs {
  import opened Wrappers
  import Banking
  import Ledger

  /** One user action with its (already parsed) inputs. */
  datatype Action =
    | Register(username: string, password: string, confirm: string, initial: Option<real>, date: string)
    | Login(username: string, password: string)
    | Logout
    | Deposit(amount: Option<real>, date: string)
    | Withdraw(amount: Option<real>, date: string)
    | ShowHistory

  /** The state after a call: the new state on success, the old one when
      the call was rejected. */
  function Settle(b: Banking.Bank, r: Result<Banking.Bank, Banking.Error>): Banking.Bank {
    if r.Success? then r.value else b
  }

  /** Every account of `b` is still present in `r` with the same password,
      and its ledger has only grown at the end. */
  predicate AppendOnly(b: Banking.Bank, r: Banking.Bank) {
    forall u :: u in b.users ==>
      && u in r.users
      && r.users[u].password == b.users[u].password
      && b.users[u].transactions <= r.users[u].transactions
  }

  /** The state after one action. Accounts are never removed, passwords
      never change and ledgers are append-only. */
  function Apply(b: Banking.Bank, a: Action): (r: Banking.Bank)
    ensures AppendOnly(b, r)
    ensures a.ShowHistory? ==> r == b
  {
    match a
    case Register(u, p, c, i, d) => Settle(b, Banking.Register(b, u, p, c, i, d))
    case Login(u, p) => Settle(b, Banking.Login(b, u, p))
    case Logout => Banking.Logout(b)
    case Deposit(x, d) => Settle(b, Banking.ProcessDeposit(b, x, d))
    case Withdraw(x, d) => Settle(b, Banking.ProcessWithdraw(b, x, d))
    case ShowHistory => b
  }

  /** The state after the actions of `acts`, first to last. */
  function Run(b: Banking.Bank, acts: seq<Action>): (r: Banking.Bank)
    ensures AppendOnly(b, r)
    decreases |acts|
  {
    if |acts| == 0 then b else Run(Apply(b, acts[0]), acts[1..])
  }

  /** One action keeps the state invariant. */
  lemma ApplyKeepsValid(b: Banking.Bank, a: Action)
    requires Banking.Valid(b)
    ensures Banking.Valid(Apply(b, a))
  {
    match a
    case Register(u, p, c, i, d) =>
      if Banking.Register(b, u, p, c, i, d).Success? {
        Banking.RegisterKeepsValid(b, u, p, c, i, d);
      }
    case Login(u, p) =>
      if Banking.Login(b, u, p).Success? {
        Banking.LoginKeepsValid(b, u, p);
      }
    case Logout =>
      Banking.LogoutKeepsValid(b);
    case Deposit(x, d) =>
      if Banking.ProcessDeposit(b, x, d).Success? {
        Banking.DepositKeepsValid(b, x, d);
      }
    case Withdraw(x, d) =>
      if Banking.ProcessWithdraw(b, x, d).Success? {
        Banking.WithdrawKeepsValid(b, x, d);
      }
    case ShowHistory =>
  }

  /** Any run of actions keeps the state invariant. */
  lemma {:induction false} RunKeepsValid(b: Banking.Bank, acts: seq<Action>)
    requires Banking.Valid(b)
    ensures Banking.Valid(Run(b, acts))
    decreases |acts|
  {
    if |acts| > 0 {
      ApplyKeepsValid(b, acts[0]);
      RunKeepsValid(Apply(b, acts[0]), acts[1..]);
    }
  }

  /** In every state reachable from the empty store, every account's
      balance is non-negative, equals the stamp of its last transaction, and
      equals its initial deposit plus its deposits minus its withdrawals. */
  lemma ReachableBalances(acts: seq<Action>, u: string)
    requires u in Run(Banking.Empty, acts).users
    ensures var a := Run(Banking.Empty, acts).users[u];
            && |a.transactions| > 0
            && a.balance >= 0.0
            && a.balance == a.transactions[|a.transactions| - 1].balance
            && a.balance == a.transactions[0].amount
                            + Ledger.Total(a.transactions, Ledger.Deposit)
                            - Ledger.Total(a.transactions, Ledger.Withdrawal)
  {
    Banking.EmptyIsValid();
    RunKeepsValid(Banking.Empty, acts);
    Ledger.Balances(Run(Banking.Empty, acts).users[u]);
  }
}
