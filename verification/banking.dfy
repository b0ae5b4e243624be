/** The account store and the single-slot session: registration, login,
    logout, deposit, withdrawal and the history view, each a pure transition
    over the whole state. A rejected call returns `Failure` and the caller
    keeps the state it had, just as the source returns before touching it. */
module Banking {
  import opened Wrappers
  import opened Text
  import opened Ledger

  /** The whole state: username to account, and the logged-in username. */
  datatype Bank = Bank(users: map<string, Account>, current: Option<string>)

  /** One constructor per error message the source can show, plus
      `NoActiveSession`, for which the source shows no message. */
  datatype Error =
    | MissingField          // registration: username or password empty
    | UsernameTaken         // registration: username already registered
    | PasswordMismatch      // registration: password and confirmation differ
    | PasswordTooShort      // registration: password under the minimum length
    | InvalidDeposit        // registration: initial deposit does not parse
    | DepositTooSmall       // registration: initial deposit under the minimum
    | MissingCredentials    // login: username or password empty
    | InvalidCredentials    // login: unknown username or wrong password
    | InvalidAmount         // deposit/withdrawal: amount does not parse
    | NonPositiveAmount     // deposit/withdrawal: amount zero or negative
    | InsufficientFunds     // withdrawal: amount above the balance
    | NoActiveSession       // deposit/withdrawal/history without a logged-in account;
                            // the source raises an uncaught KeyError here instead

  const MinPasswordLength: nat := 4
  const MinInitialDeposit: real := 100.0

  /** The state the application starts from when no saved data exists. */
  const Empty: Bank := Bank(map[], None)

  /** Some account is logged in. */
  predicate LoggedIn(b: Bank) {
    b.current.Some? && b.current.value in b.users
  }

  /** `r` differs from `b` at most in the account of `u`: same session, same
      usernames, every other account identical. */
  predicate OnlyAccountChanged(b: Bank, r: Bank, u: string) {
    && r.current == b.current
    && r.users.Keys == b.users.Keys
    && (forall v :: v in b.users && v != u ==> r.users[v] == b.users[v])
  }

  /** What every stored account satisfies: its key is a non-empty stripped
      username, its password is long enough, its ledger is well formed and
      it was opened with at least the minimum deposit. */
  predicate ValidAccount(u: string, a: Account) {
    && u != [] && Strip(u) == u
    && |a.password| >= MinPasswordLength
    && WellFormed(a)
    && a.transactions[0].amount >= MinInitialDeposit
  }

  /** The state invariant: every account is valid and the session, if any,
      names a registered account. */
  predicate Valid(b: Bank) {
    && (forall u :: u in b.users ==> ValidAccount(u, b.users[u]))
    && (b.current.Some? ==> b.current.value in b.users)
  }

  /** All registration checks pass for stripped username `u`. */
  predicate RegisterAccepted(b: Bank, u: string, password: string, confirm: string, initial: Option<real>) {
    && u != [] && password != []
    && u !in b.users
    && password == confirm
    && |password| >= MinPasswordLength
    && initial.Some? && initial.value >= MinInitialDeposit
  }

  /** Registration. The username is stripped, the password is not; `initial`
      is the parsed initial deposit (`None` when it does not parse) and `date`
      the timestamp of the opening entry. */
  function Register(b: Bank, username: string, password: string, confirm: string,
                    initial: Option<real>, date: string): (r: Result<Bank, Error>)
    ensures r.Success? <==> RegisterAccepted(b, Strip(username), password, confirm, initial)
    // The rejections, in the order the checks are made.
    ensures Strip(username) == [] || password == [] ==> r == Failure(MissingField)
    ensures Strip(username) != [] && password != [] && Strip(username) in b.users
            ==> r == Failure(UsernameTaken)
    ensures Strip(username) != [] && password != [] && Strip(username) !in b.users
            && password != confirm
            ==> r == Failure(PasswordMismatch)
    ensures Strip(username) != [] && password != [] && Strip(username) !in b.users
            && password == confirm && |password| < MinPasswordLength
            ==> r == Failure(PasswordTooShort)
    ensures Strip(username) != [] && Strip(username) !in b.users
            && password == confirm && |password| >= MinPasswordLength && initial.None?
            ==> r == Failure(InvalidDeposit)
    ensures Strip(username) != [] && Strip(username) !in b.users
            && password == confirm && |password| >= MinPasswordLength
            && initial.Some? && initial.value < MinInitialDeposit
            ==> r == Failure(DepositTooSmall)
    // On success exactly one account is added, holding the initial deposit.
    ensures r.Success? ==>
              && r.value.current == b.current
              && r.value.users.Keys == b.users.Keys + {Strip(username)}
              && (forall v :: v in b.users ==> r.value.users[v] == b.users[v])
    ensures r.Success? ==>
              var a := r.value.users[Strip(username)];
              && a.password == password
              && a.balance == initial.value
              && a.transactions == [Transaction(InitialDeposit, initial.value, date, initial.value)]
  {
    var u := Strip(username);
    if u == [] || password == [] then Failure(MissingField)
    else if u in b.users then Failure(UsernameTaken)
    else if password != confirm then Failure(PasswordMismatch)
    else if |password| < MinPasswordLength then Failure(PasswordTooShort)
    else if initial.None? then Failure(InvalidDeposit)
    else if initial.value < MinInitialDeposit then Failure(DepositTooSmall)
    else Success(b.(users := b.users[u := Open(password, initial.value, date)]))
  }

  /** Login: the username is stripped, the password compared exactly. */
  function Login(b: Bank, username: string, password: string): (r: Result<Bank, Error>)
    ensures r.Success? <==>
              && Strip(username) != [] && password != []
              && Strip(username) in b.users && b.users[Strip(username)].password == password
    ensures r.Success? ==> r.value.users == b.users && r.value.current == Some(Strip(username))
    ensures Strip(username) == [] || password == [] ==> r == Failure(MissingCredentials)
    // An unknown username and a wrong password are reported alike.
    ensures r.Failure? && Strip(username) != [] && password != [] ==> r.error == InvalidCredentials
  {
    var u := Strip(username);
    if u == [] || password == [] then Failure(MissingCredentials)
    else if u in b.users && b.users[u].password == password then Success(b.(current := Some(u)))
    else Failure(InvalidCredentials)
  }

  /** Logout clears the session whatever it held. */
  function Logout(b: Bank): (r: Bank)
    ensures r.users == b.users && r.current.None?
  {
    b.(current := None)
  }

  /** Deposit of the parsed amount `amount` into the logged-in account. */
  function ProcessDeposit(b: Bank, amount: Option<real>, date: string): (r: Result<Bank, Error>)
    ensures r.Success? <==> amount.Some? && amount.value > 0.0 && LoggedIn(b)
    ensures amount.None? ==> r == Failure(InvalidAmount)
    ensures amount.Some? && amount.value <= 0.0 ==> r == Failure(NonPositiveAmount)
    ensures amount.Some? && amount.value > 0.0 && !LoggedIn(b) ==> r == Failure(NoActiveSession)
    ensures r.Success? ==> OnlyAccountChanged(b, r.value, b.current.value)
    ensures r.Success? ==>
              var u := b.current.value;
              var a, a' := b.users[u], r.value.users[u];
              && a'.password == a.password
              && a'.balance == a.balance + amount.value
              && a'.transactions == a.transactions + [Transaction(Deposit, amount.value, date, a'.balance)]
  {
    if amount.None? then Failure(InvalidAmount)
    else if amount.value <= 0.0 then Failure(NonPositiveAmount)
    else if !LoggedIn(b) then Failure(NoActiveSession)
    else
      var u := b.current.value;
      Success(b.(users := b.users[u := Credit(b.users[u], amount.value, date)]))
  }

  /** Withdrawal of the parsed amount `amount` from the logged-in account. */
  function ProcessWithdraw(b: Bank, amount: Option<real>, date: string): (r: Result<Bank, Error>)
    ensures r.Success? <==>
              amount.Some? && amount.value > 0.0 && LoggedIn(b)
              && amount.value <= b.users[b.current.value].balance
    ensures amount.None? ==> r == Failure(InvalidAmount)
    ensures amount.Some? && amount.value <= 0.0 ==> r == Failure(NonPositiveAmount)
    ensures amount.Some? && amount.value > 0.0 && !LoggedIn(b) ==> r == Failure(NoActiveSession)
    ensures amount.Some? && amount.value > 0.0 && LoggedIn(b)
            && amount.value > b.users[b.current.value].balance
            ==> r == Failure(InsufficientFunds)
    ensures r.Success? ==> OnlyAccountChanged(b, r.value, b.current.value)
    ensures r.Success? ==>
              var u := b.current.value;
              var a, a' := b.users[u], r.value.users[u];
              && a'.password == a.password
              && a'.balance == a.balance - amount.value
              && a'.balance >= 0.0
              && a'.transactions == a.transactions + [Transaction(Withdrawal, amount.value, date, a'.balance)]
  {
    if amount.None? then Failure(InvalidAmount)
    else if amount.value <= 0.0 then Failure(NonPositiveAmount)
    else if !LoggedIn(b) then Failure(NoActiveSession)
    else
      var u := b.current.value;
      if amount.value > b.users[u].balance then Failure(InsufficientFunds)
      else Success(b.(users := b.users[u := Debit(b.users[u], amount.value, date)]))
  }

  /** The history view: the logged-in account's transactions, newest first. */
  function History(b: Bank): (r: Result<seq<Transaction>, Error>)
    ensures r.Success? <==> LoggedIn(b)
    ensures r.Failure? ==> r.error == NoActiveSession
    ensures r.Success? ==>
              var txs := b.users[b.current.value].transactions;
              && |r.value| == |txs|
              && forall i :: 0 <= i < |txs| ==> r.value[i] == txs[|txs| - 1 - i]
  {
    if LoggedIn(b) then Success(Reverse(b.users[b.current.value].transactions))
    else Failure(NoActiveSession)
  }

  lemma EmptyIsValid()
    ensures Valid(Empty)
  {
  }

  /** A successful registration keeps the state invariant. */
  lemma RegisterKeepsValid(b: Bank, username: string, password: string, confirm: string,
                           initial: Option<real>, date: string)
    requires Valid(b)
    requires Register(b, username, password, confirm, initial, date).Success?
    ensures Valid(Register(b, username, password, confirm, initial, date).value)
  {
    StripIdempotent(username);
  }

  /** A successful login keeps the state invariant. */
  lemma LoginKeepsValid(b: Bank, username: string, password: string)
    requires Valid(b) && Login(b, username, password).Success?
    ensures Valid(Login(b, username, password).value)
  {
  }

  /** Logout keeps the state invariant. */
  lemma LogoutKeepsValid(b: Bank)
    requires Valid(b)
    ensures Valid(Logout(b))
  {
  }

  /** Replacing one registered account by a valid one keeps the invariant. */
  lemma ReplaceKeepsValid(b: Bank, u: string, a: Account)
    requires Valid(b) && u in b.users && ValidAccount(u, a)
    ensures Valid(b.(users := b.users[u := a]))
  {
  }

  lemma CreditKeepsValidAccount(u: string, a: Account, amount: real, date: string)
    requires ValidAccount(u, a) && amount > 0.0
    ensures ValidAccount(u, Credit(a, amount, date))
  {
    CreditKeepsWellFormed(a, amount, date);
    assert Credit(a, amount, date).transactions[0] == a.transactions[0];
  }

  /** A successful deposit keeps the state invariant. */
  lemma DepositKeepsValid(b: Bank, amount: Option<real>, date: string)
    requires Valid(b) && ProcessDeposit(b, amount, date).Success?
    ensures Valid(ProcessDeposit(b, amount, date).value)
  {
    var u, a := b.current.value, b.users[b.current.value];
    CreditKeepsValidAccount(u, a, amount.value, date);
    var b' := b.(users := b.users[u := Credit(a, amount.value, date)]);
    ReplaceKeepsValid(b, u, Credit(a, amount.value, date));
    assert ProcessDeposit(b, amount, date) == Success(b');
  }

  lemma DebitKeepsValidAccount(u: string, a: Account, amount: real, date: string)
    requires ValidAccount(u, a) && 0.0 < amount <= a.balance
    ensures ValidAccount(u, Debit(a, amount, date))
  {
    DebitKeepsWellFormed(a, amount, date);
    assert Debit(a, amount, date).transactions[0] == a.transactions[0];
  }

  /** A successful withdrawal keeps the state invariant. */
  lemma WithdrawKeepsValid(b: Bank, amount: Option<real>, date: string)
    requires Valid(b) && ProcessWithdraw(b, amount, date).Success?
    ensures Valid(ProcessWithdraw(b, amount, date).value)
  {
    var u, a := b.current.value, b.users[b.current.value];
    DebitKeepsValidAccount(u, a, amount.value, date);
    var b' := b.(users := b.users[u := Debit(a, amount.value, date)]);
    ReplaceKeepsValid(b, u, Debit(a, amount.value, date));
    assert ProcessWithdraw(b, amount, date) == Success(b');
  }

  /** Logging out twice is the same as logging out once. */
  lemma LogoutIdempotent(b: Bank)
    ensures Logout(Logout(b)) == Logout(b)
  {
  }

  /** After a deposit the history view shows the new entry first, followed
      by the history as it was. */
  lemma HistoryAfterDeposit(b: Bank, amount: Option<real>, date: string)
    requires ProcessDeposit(b, amount, date).Success?
    ensures var b' := ProcessDeposit(b, amount, date).value;
            var a' := b'.users[b.current.value];
            History(b') == Success([Transaction(Deposit, amount.value, date, a'.balance)] + History(b).value)
  {
    var u := b.current.value;
    var b' := ProcessDeposit(b, amount, date).value;
    var t := Transaction(Deposit, amount.value, date, b'.users[u].balance);
    ReverseAppend(b.users[u].transactions, t);
  }

  /** A withdrawal of the amount just deposited is always accepted and
      restores the balance. */
  lemma WithdrawUndoesDeposit(b: Bank, x: real, d1: string, d2: string)
    requires Valid(b) && ProcessDeposit(b, Some(x), d1).Success?
    ensures var b1 := ProcessDeposit(b, Some(x), d1).value;
            var r := ProcessWithdraw(b1, Some(x), d2);
            && r.Success?
            && r.value.users[b.current.value].balance == b.users[b.current.value].balance
  {
    var u, a := b.current.value, b.users[b.current.value];
    var b1 := ProcessDeposit(b, Some(x), d1).value;
    Balances(a);
    assert b1.users[u] == Credit(a, x, d1);
    var r := ProcessWithdraw(b1, Some(x), d2);
    assert r.Success?;
    assert r.value.users[u] == Debit(Credit(a, x, d1), x, d2);
    DebitUndoesCredit(a, x, d1, d2);
  }

  /** Withdrawing the whole balance is accepted and leaves zero; one paisa
      more is refused for insufficient funds. */
  lemma WithdrawWholeBalance(b: Bank, date: string)
    requires LoggedIn(b) && b.users[b.current.value].balance > 0.0
    ensures var bal := b.users[b.current.value].balance;
            && ProcessWithdraw(b, Some(bal), date).Success?
            && ProcessWithdraw(b, Some(bal), date).value.users[b.current.value].balance == 0.0
            && ProcessWithdraw(b, Some(bal + 0.01), date) == Failure(InsufficientFunds)
  {
  }

  /** The worked registration example: "alice" with an initial deposit of 50
      is refused; with 100 it opens an account holding 100 and one entry. */
  lemma RegisterExample(date: string)
    ensures Register(Empty, "alice", "pass1", "pass1", Some(50.0), date) == Failure(DepositTooSmall)
    ensures var r := Register(Empty, "alice", "pass1", "pass1", Some(100.0), date);
            && r.Success? && "alice" in r.value.users
            && r.value.users["alice"].balance == 100.0
            && |r.value.users["alice"].transactions| == 1
  {
    assert Strip("alice") == "alice";
  }
}
