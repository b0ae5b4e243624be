# Banking ledger core — a Dafny model

This project models the account and ledger rules of the `BankingSystem`
desktop application (`banking_system.py`). Without its windows and dialogs, the
application is a small state machine. Its state is the user store (username →
account) plus the single session slot. Its operations are:

- register an account, funded by an initial deposit;
- log in, comparing the password exactly;
- log out;
- deposit and withdraw, which validate the amount, update the balance and
  append a transaction stamped with the new balance;
- list the history, newest entry first.

Every operation is a pure function. `Register`, `Login`, `ProcessDeposit` and
`ProcessWithdraw` take the current state and their inputs and return a
`Result`: either the new state or an error. A rejected call returns
`Failure(error)` and the caller keeps its old state. This matches the source,
where every check comes before the first mutation, so a rejected call changes
nothing. `Logout` cannot be refused and returns the new state. `History`
returns the entries, or an error without a session, and changes nothing.

Modules:

- `Wrappers` (`wrappers.dfy`): `Option` and `Result`.
- `Text` (`text.dfy`): the whitespace stripping applied to the username,
  with `IsSpace` listing the characters that Python's `str.isspace` accepts.
- `Ledger` (`ledger.dfy`): transactions, accounts and the ledger invariant
  `WellFormed`. That invariant says:
  - the first entry is the only initial deposit;
  - every amount is positive;
  - every stamp is the previous stamp plus the entry's effect, and is never
    negative;
  - the balance is the last stamp.

  This module also defines credit, debit and the reversed view.
- `Banking` (`banking.dfy`): the store and session (`Bank`), the error kinds,
  the six operations and the state invariant `Valid`.
- `Runs` (`runs.dfy`): runs of user actions from the empty store, and
  the reachability results.

Amounts are exact `real`s. The number parsed from a text field is an input of
type `Option<real>`, with `None` meaning that parsing failed. Timestamps are
opaque `string` inputs.

## Model

| member | source | states |
|---|---|---|
| Text.SkipSpace | banking_system.py:159 | the scan from a position stops at the first non-whitespace character, or at the end, having passed only whitespace |
| Text.SkipSpaceBack | banking_system.py:159 | the backward scan stops just after the last non-whitespace character, or at the lower limit, having passed only whitespace |
| Text.Strip | banking_system.py:159 | has no contract of its own; Text.StripSlices and Text.StripCharacterized together show it returns exactly what Python's `str.strip()` returns: the unique slice with only whitespace removed from both ends |
| Text.StripSlices | banking_system.py:159 | the stripped username is a slice of the input that neither starts nor ends with whitespace, and only whitespace is dropped |
| Text.StripCharacterized | banking_system.py:208 | any slice meeting those conditions is the stripped value, so stripping has exactly one result |
| Text.StripEmptyIff | banking_system.py:165 | a username is empty after stripping exactly when it consists only of whitespace |
| Text.StripIdempotent | banking_system.py:159 | stripping an already-stripped name changes nothing, so stored usernames are fixed points of the login-time strip |
| Ledger.Open | banking_system.py:190-200 | a new account holds the initial amount as its balance and a single Initial Deposit entry whose amount and stamp are that amount; it satisfies the ledger invariant |
| Ledger.Credit | banking_system.py:354-364 | a deposit raises the balance by exactly the amount and appends exactly one Deposit entry stamped with the new balance; earlier entries and the password are unchanged |
| Ledger.Debit | banking_system.py:388-398 | a withdrawal lowers the balance by exactly the amount and appends exactly one Withdrawal entry stamped with the new balance; earlier entries and the password are unchanged |
| Ledger.NetIsTotals | banking_system.py:355-398 | replaying a ledger from zero gives the total of initial deposits and deposits minus the total of withdrawals |
| Ledger.LastStampIsNet | banking_system.py:358-363 | when every entry is stamped with the running balance, the last stamp is the replayed balance |
| Ledger.AppendKeepsWellFormed | banking_system.py:355-364 | appending a positive non-initial entry, stamped with the old balance plus its effect, keeps the ledger invariant when the stamp is non-negative |
| Ledger.CreditKeepsWellFormed | banking_system.py:355-364 | a positive deposit keeps the ledger invariant |
| Ledger.DebitKeepsWellFormed | banking_system.py:383-398 | a positive withdrawal no larger than the balance keeps the ledger invariant, so the balance stays non-negative |
| Ledger.DebitUndoesCredit | banking_system.py:355-398 | withdrawing an amount just deposited restores the balance, and the ledger keeps both entries |
| Ledger.InitialTotalIsFirst | banking_system.py:194-199 | in a ledger whose first entry is its only initial deposit, the initial-deposit total is that entry's amount |
| Ledger.Balances | banking_system.py:389-398 | for a well-formed account, the balance is non-negative, is the last stamp, and equals the initial deposit plus all deposits minus all withdrawals |
| Ledger.Reverse | banking_system.py:447 | the reversed view has the same length, and its entry i is the ledger's entry counted i from the end |
| Ledger.ReverseInvolutive | banking_system.py:447 | reversing the view again gives the insertion order back |
| Ledger.ReverseAppend | banking_system.py:446-447 | after an append, the new entry heads the reversed view, followed by the old view |
| Banking.Register | banking_system.py:157-204 | succeeds exactly when every check passes; otherwise it reports the first failing check in this order: empty stripped username or empty password, taken username, mismatched confirmation, password shorter than 4, unparsable initial deposit, initial deposit below 100; on success it adds exactly the new key, with the initial balance and one Initial Deposit entry, and leaves the other accounts and the session unchanged |
| Banking.Login | banking_system.py:206-219 | rejects empty fields; otherwise succeeds exactly when the stripped username is registered and its password equals the supplied one exactly; success sets the session to that username and leaves the store alone; an unknown user and a wrong password give the same error |
| Banking.Logout | banking_system.py:467-470 | clears the session whatever it held and leaves the store unchanged |
| Banking.ProcessDeposit | banking_system.py:346-373 | rejects an unparsable amount, then an amount of 0 or less, then a missing session; otherwise it raises the current balance by exactly the amount, appends one Deposit entry stamped with the new balance, and leaves every other account and the session unchanged |
| Banking.ProcessWithdraw | banking_system.py:375-407 | rejects an unparsable amount, then an amount of 0 or less, then a missing session, then an amount above the balance; otherwise it lowers the balance by exactly the amount, to a value that is not negative, and appends one Withdrawal entry stamped with the new balance, leaving everything else unchanged |
| Banking.History | banking_system.py:446-447 | with a session, lists exactly the account's transactions, newest first; without one, it is rejected |
| Banking.RegisterExample | banking_system.py:181-200 | "alice" with password "pass1" and an initial deposit of 50 is refused as too small; with 100 the account opens with balance 100 and a single entry |
| Banking.EmptyIsValid | banking_system.py:9-10 | the empty store with no session satisfies the state invariant |
| Banking.RegisterKeepsValid | banking_system.py:190-200 | a successful registration keeps every account valid: non-empty stripped key, password of at least 4 characters, well-formed ledger, initial deposit of at least 100 |
| Banking.LoginKeepsValid | banking_system.py:215-216 | a successful login only ever points the session at a registered account |
| Banking.LogoutKeepsValid | banking_system.py:467-469 | logout keeps the state invariant |
| Banking.DepositKeepsValid | banking_system.py:346-364 | a successful deposit keeps the state invariant |
| Banking.WithdrawKeepsValid | banking_system.py:375-398 | a successful withdrawal keeps the state invariant |
| Banking.LogoutIdempotent | banking_system.py:467-469 | logging out twice is the same as logging out once |
| Banking.HistoryAfterDeposit | banking_system.py:446-447 | after a deposit, the history shows the new Deposit entry first, followed by the previous history |
| Banking.WithdrawUndoesDeposit | banking_system.py:375-398 | in a valid state, withdrawing the amount just deposited is always accepted and restores the balance |
| Banking.WithdrawWholeBalance | banking_system.py:383-389 | in any logged-in state with a positive balance, withdrawing exactly the balance is accepted and leaves 0; withdrawing 0.01 more is refused for insufficient funds |
| Runs.Apply | banking_system.py:355-398 | any single action removes no account, changes no password, and only appends to ledgers; showing the history changes nothing |
| Runs.Run | banking_system.py:355-398 | a whole run of actions removes no account, changes no password, and only appends to ledgers |
| Runs.ApplyKeepsValid | banking_system.py:157-219 | every action, accepted or rejected, keeps the state invariant |
| Runs.RunKeepsValid | banking_system.py:9-10 | every run of actions from a valid state ends in a valid state |
| Runs.ReachableBalances | banking_system.py:355-398 | in every state reachable from the empty store, each balance is non-negative, equals the last stamp, and equals the initial deposit plus deposits minus withdrawals |

## Left out

- The tkinter user interface is not modelled. This covers the window and screen builders, dialogs, message boxes, `clear_screen`, `update_balance_display` and `run`. These only present data and enforce no rules.
- `load_data` and `save_data` are not modelled, because they are JSON file I/O. `save_data` catches every write error and only shows a message, so a failed save never undoes the in-memory change. In the model, a successful operation therefore stays successful whatever happens on disk.
- The reachability results start from the empty store, which is what the application starts with when no data file exists. Data loaded from an existing file is trusted as written and may not satisfy `Valid`.
- The timestamps from `datetime.now()` are opaque `date` inputs.
- `float()` parsing is not modelled. Each amount field arrives already parsed, as an `Option<real>`. This includes the `.strip()` applied to the amount fields. Python float quirks are out of scope: `nan` and `inf` pass the `< 100` and `<= 0` checks, and `+=` and `-=` round. The model uses exact arithmetic.
- Text.IsSpace: the set of whitespace characters is the fixed list Python's `str.isspace` accepts. It is not derived from a Unicode database.
- Banking.ProcessDeposit, Banking.ProcessWithdraw and Banking.History: the source indexes `users` by `current_user` without checking it. With no session this raises an uncaught `KeyError`, and the interface only offers these actions after a login. The model reports `NoActiveSession` instead. It does so at the same point in the check order, after the amount checks.
- Three behaviours of the code that are easy to miss:
  - The password is not stripped, so a password made only of spaces counts as present.
  - A failed login leaves the session as it was. It is not explicitly cleared.
  - For deposit and withdrawal, the amount is validated before the session is consulted.
