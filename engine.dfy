/**
 * The transaction engine of sendit_telegram_app.py as pure transitions over the
 * tables: each handler maps the table it touches and its inputs to an outcome
 * (in place of the flashed or replied text) and the table afterwards.
 */
module Engine {
  import opened Wrappers
  import opened Store
  import Text

  /** Granted to a username the first time its balance is read as viewer or sender. */
  const StartingBalance: real := 1000.0
  /** The balance a receiver's row is opened with. */
  const ReceiverOpeningBalance: real := 0.0
  /** Bounds of `random.randint(100000, 999999)`, both included. */
  const OtpMin: int := 100000
  const OtpMax: int := 999999

  datatype Transition<O, V> = Transition(outcome: O, table: map<string, V>)

  /** Replies of POST /balance. */
  datatype BalanceOutcome = CurrentBalance(balance: real) | UsernameRequired

  /** Replies of POST /send_money. */
  datatype TransferOutcome =
    | Success(amount: real, receiver: string)
    | MissingFields
    | InvalidAmount
    | SelfTransfer
    | InsufficientFunds

  /** Replies of /verify. */
  datatype VerifyOutcome = OtpIssued(otp: int) | NoUsername

  /** Replies of /confirm: token count not 2, non-integer code, match, no match. */
  datatype ConfirmOutcome = WrongArity | InvalidFormat | Verified | Rejected

  /** Python truthiness of `request.form.get(...)`: present and not the empty string. */
  predicate Filled(field: Option<string>) {
    field.Some? && field.value != ""
  }

  /** The balance a viewer or sender has once the lazy faucet has run. */
  function OpeningBalance(balances: map<string, real>, username: string): real {
    if username in balances then balances[username] else StartingBalance
  }

  /** The balance a receiver has once its row has been opened. */
  function ReceiverBalance(balances: map<string, real>, username: string): real {
    if username in balances then balances[username] else ReceiverOpeningBalance
  }

  /** Every stored code lies in the range `random.randint` draws from. */
  predicate CodesInRange(otps: map<string, int>) {
    forall u :: u in otps ==> OtpMin <= otps[u] <= OtpMax
  }

  // ---------------------------------------------------------------- balance

  /** POST /balance: report the balance, saving 1000.0 for a username never seen. */
  function CheckBalance(balances: map<string, real>, username: Option<string>): Transition<BalanceOutcome, real> {
    if !Filled(username) then Transition(UsernameRequired, balances)
    else
      var b := OpeningBalance(balances, username.value);
      Transition(CurrentBalance(b), Upsert(balances, username.value, b))
  }

  /** A never-seen username is granted 1000.0, and that row is saved. */
  lemma CheckBalanceFaucet(balances: map<string, real>, username: string)
    requires username != "" && username !in balances
    ensures var t := CheckBalance(balances, Some(username));
      && t.outcome == CurrentBalance(1000.0)
      && Lookup(t.table, username) == Some(1000.0)
      && forall other :: other != username ==> Lookup(t.table, other) == Lookup(balances, other)
  {
  }

  /** A known username gets its stored balance and nothing is written. */
  lemma CheckBalanceKnown(balances: map<string, real>, username: string)
    requires username != "" && username in balances
    ensures CheckBalance(balances, Some(username)) == Transition(CurrentBalance(balances[username]), balances)
  {
  }

  /** A second check returns the saved value and does not initialise again. */
  lemma CheckBalanceRepeat(balances: map<string, real>, username: Option<string>)
    ensures var first := CheckBalance(balances, username);
      CheckBalance(first.table, username) == first
  {
  }

  /** A missing or empty username changes nothing. */
  lemma CheckBalanceNoUsername(balances: map<string, real>, username: Option<string>)
    requires !Filled(username)
    ensures CheckBalance(balances, username) == Transition(UsernameRequired, balances)
  {
  }

  /** A balance check adds 1000.0 to the total of all balances for a new username and nothing otherwise. */
  lemma CheckBalanceTotal(balances: map<string, real>, username: Option<string>)
    ensures Total(CheckBalance(balances, username).table)
         == Total(balances) + (if Filled(username) && username.value !in balances then StartingBalance else 0.0)
  {
    if Filled(username) {
      TotalUpsert(balances, username.value, OpeningBalance(balances, username.value));
    }
  }

  // ---------------------------------------------------------------- transfer

  /**
   * POST /send_money. The checks run in the source's order and the first one
   * that fails decides the outcome. A never-seen sender is saved at 1000.0
   * before the self-transfer and funds checks; no amount is rejected for its
   * sign; a never-seen receiver starts at 0.0.
   */
  function Transfer(balances: map<string, real>, sender: Option<string>, receiver: Option<string>,
                    amount: Option<string>, parseAmount: string -> Option<real>): Transition<TransferOutcome, real>
  {
    if !Filled(sender) || !Filled(receiver) || !Filled(amount) then Transition(MissingFields, balances)
    else match parseAmount(amount.value)
      case None => Transition(InvalidAmount, balances)
      case Some(x) =>
        var s, r := sender.value, receiver.value;
        var sb := OpeningBalance(balances, s);
        if s == r then Transition(SelfTransfer, Upsert(balances, s, sb))
        else if sb < x then Transition(InsufficientFunds, Upsert(balances, s, sb))
        else Transition(Success(x, r), Upsert(Upsert(balances, s, sb - x), r, ReceiverBalance(balances, r) + x))
  }

  /** The write a transfer that passes every check performs (used by the step-by-step handler). */
  lemma TransferPasses(balances: map<string, real>, sender: Option<string>, receiver: Option<string>,
                       amount: Option<string>, parseAmount: string -> Option<real>, x: real)
    requires Filled(sender) && Filled(receiver) && Filled(amount) && sender != receiver
    requires parseAmount(amount.value) == Some(x) && OpeningBalance(balances, sender.value) >= x
    ensures Transfer(balances, sender, receiver, amount, parseAmount)
         == Transition(Success(x, receiver.value),
                       Upsert(Upsert(balances, sender.value, OpeningBalance(balances, sender.value) - x),
                              receiver.value, ReceiverBalance(balances, receiver.value) + x))
  {
  }

  /** Each outcome happens exactly when every earlier check passed and its own failed. */
  lemma TransferCheckOrder(balances: map<string, real>, sender: Option<string>, receiver: Option<string>,
                           amount: Option<string>, parseAmount: string -> Option<real>)
    ensures var t := Transfer(balances, sender, receiver, amount, parseAmount);
      var filled := Filled(sender) && Filled(receiver) && Filled(amount);
      var parsed := filled && parseAmount(amount.value).Some?;
      && (t.outcome == MissingFields <==> !filled)
      && (t.outcome == InvalidAmount <==> filled && !parsed)
      && (t.outcome == SelfTransfer <==> parsed && sender.value == receiver.value)
      && (t.outcome == InsufficientFunds <==>
            parsed && sender.value != receiver.value
            && OpeningBalance(balances, sender.value) < parseAmount(amount.value).value)
      && (t.outcome.Success? <==>
            parsed && sender.value != receiver.value
            && OpeningBalance(balances, sender.value) >= parseAmount(amount.value).value)
      && (!parsed ==> t.table == balances)
  {
  }

  /** Sending to oneself always fails; the only write is the faucet row of a new sender. */
  lemma SelfTransferRejected(balances: map<string, real>, user: string, amount: string,
                             parseAmount: string -> Option<real>)
    requires user != "" && amount != "" && parseAmount(amount).Some?
    ensures var t := Transfer(balances, Some(user), Some(user), Some(amount), parseAmount);
      && t.outcome == SelfTransfer
      && (user in balances ==> t.table == balances)
      && (user !in balances ==> t.table == Upsert(balances, user, StartingBalance))
  {
  }

  /**
   * Funds are insufficient exactly when the balance is below the amount, so the
   * whole balance can be sent; on this rejection the receiver is untouched.
   */
  lemma InsufficientFundsEffect(balances: map<string, real>, sender: string, receiver: string,
                                amount: string, parseAmount: string -> Option<real>)
    requires sender != "" && receiver != "" && amount != "" && sender != receiver
    requires parseAmount(amount).Some?
    ensures var t := Transfer(balances, Some(sender), Some(receiver), Some(amount), parseAmount);
      && (t.outcome == InsufficientFunds <==> OpeningBalance(balances, sender) < parseAmount(amount).value)
      && (t.outcome == InsufficientFunds ==>
            && Lookup(t.table, receiver) == Lookup(balances, receiver)
            && t.table == Upsert(balances, sender, OpeningBalance(balances, sender)))
  {
  }

  /**
   * A successful transfer debits the sender and credits the receiver (counted
   * from 0.0 when new) by the same amount, so their sum is conserved, and no
   * other row changes.
   */
  lemma TransferSuccessEffect(balances: map<string, real>, sender: string, receiver: string,
                              amount: string, parseAmount: string -> Option<real>)
    requires sender != "" && receiver != "" && amount != ""
    requires Transfer(balances, Some(sender), Some(receiver), Some(amount), parseAmount).outcome.Success?
    ensures var t := Transfer(balances, Some(sender), Some(receiver), Some(amount), parseAmount);
      var x := parseAmount(amount).value;
      && sender != receiver
      && t.outcome == Success(x, receiver)
      && Lookup(t.table, sender) == Some(OpeningBalance(balances, sender) - x)
      && Lookup(t.table, receiver) == Some(ReceiverBalance(balances, receiver) + x)
      && t.table[sender] + t.table[receiver]
         == OpeningBalance(balances, sender) + ReceiverBalance(balances, receiver)
      && (forall u :: u != sender && u != receiver ==> Lookup(t.table, u) == Lookup(balances, u))
  {
  }

  /**
   * No sign check: a negative amount succeeds whenever the sender's balance is
   * at least that amount, and it moves money from the receiver to the sender.
   */
  lemma NegativeAmountAccepted(balances: map<string, real>, sender: string, receiver: string,
                               amount: string, parseAmount: string -> Option<real>)
    requires sender != "" && receiver != "" && amount != "" && sender != receiver
    requires parseAmount(amount).Some? && parseAmount(amount).value < 0.0
    requires OpeningBalance(balances, sender) >= parseAmount(amount).value
    ensures var t := Transfer(balances, Some(sender), Some(receiver), Some(amount), parseAmount);
      var x := parseAmount(amount).value;
      && t.outcome == Success(x, receiver)
      && t.table[sender] == OpeningBalance(balances, sender) - x > OpeningBalance(balances, sender)
      && t.table[receiver] == ReceiverBalance(balances, receiver) + x < ReceiverBalance(balances, receiver)
  {
  }

  /**
   * A→B by an amount and then B→A by the same amount string: the second
   * transfer succeeds exactly when B did not start below zero, and then both
   * rows are back at their values after the first transfer's lookups.
   */
  lemma {:induction false} TransferRoundTrip(balances: map<string, real>, a: string, b: string,
                                              amount: string, parseAmount: string -> Option<real>)
    requires a != "" && b != "" && amount != ""
    requires Transfer(balances, Some(a), Some(b), Some(amount), parseAmount).outcome.Success?
    ensures var first := Transfer(balances, Some(a), Some(b), Some(amount), parseAmount);
      var second := Transfer(first.table, Some(b), Some(a), Some(amount), parseAmount);
      && (second.outcome.Success? <==> ReceiverBalance(balances, b) >= 0.0)
      && (second.outcome.Success? ==>
            second.table == Upsert(Upsert(balances, a, OpeningBalance(balances, a)), b, ReceiverBalance(balances, b)))
  {
  }

  /**
   * Money is created only by the faucet: a transfer that reaches the sender
   * lookup adds 1000.0 to the total of all balances when the sender is new and
   * nothing otherwise; the earlier rejections change nothing.
   */
  lemma TransferTotal(balances: map<string, real>, sender: Option<string>, receiver: Option<string>,
                      amount: Option<string>, parseAmount: string -> Option<real>)
    ensures var t := Transfer(balances, sender, receiver, amount, parseAmount);
      && (t.outcome == MissingFields || t.outcome == InvalidAmount ==> Total(t.table) == Total(balances))
      && (t.outcome != MissingFields && t.outcome != InvalidAmount ==>
            Total(t.table) == Total(balances) + (if sender.value in balances then 0.0 else StartingBalance))
  {
    var t := Transfer(balances, sender, receiver, amount, parseAmount);
    if t.outcome != MissingFields && t.outcome != InvalidAmount {
      var s, r := sender.value, receiver.value;
      var x := parseAmount(amount.value).value;
      var sb := OpeningBalance(balances, s);
      TotalUpsert(balances, s, sb);
      if t.outcome.Success? {
        var m1 := Upsert(balances, s, sb - x);
        TotalUpsert(balances, s, sb - x);
        TotalUpsert(m1, r, ReceiverBalance(balances, r) + x);
        assert ReceiverBalance(m1, r) == ReceiverBalance(balances, r);
      }
    }
  }

  // ---------------------------------------------------------------- OTP

  /** /verify: store `code` for the user, replacing any earlier code. */
  function Issue(otps: map<string, int>, user: Option<string>, code: int): Transition<VerifyOutcome, int>
    requires OtpMin <= code <= OtpMax
  {
    match user
    case None => Transition(NoUsername, otps)
    case Some(u) => Transition(OtpIssued(code), Upsert(otps, u, code))
  }

  /**
   * No username: nothing is written. Otherwise the user's code is replaced by
   * one in range, other users' codes stay, and every stored code stays in range.
   */
  lemma IssueEffect(otps: map<string, int>, user: Option<string>, code: int)
    requires OtpMin <= code <= OtpMax
    ensures var t := Issue(otps, user, code);
      && (user.None? ==> t == Transition(NoUsername, otps))
      && (user.Some? ==>
            && t.outcome == OtpIssued(code)
            && Lookup(t.table, user.value) == Some(code)
            && forall other :: other != user.value ==> Lookup(t.table, other) == Lookup(otps, other))
      && (CodesInRange(otps) ==> CodesInRange(t.table))
  {
  }

  /**
   * /confirm: exactly two tokens, an integer second token, and then a stored
   * code for the user equal to it. A user without a username matches no row.
   */
  function Confirm(otps: map<string, int>, text: string, user: Option<string>,
                   parseInt: string -> Option<int>): ConfirmOutcome
  {
    var params := Text.Split(text);
    if |params| != 2 then WrongArity
    else match parseInt(params[1])
      case None => InvalidFormat
      case Some(code) =>
        if user.Some? && Lookup(otps, user.value) == Some(code) then Verified else Rejected
  }

  /**
   * The token count is checked first, then the parse, both without reading the
   * table; only then does the stored code decide.
   */
  lemma ConfirmCheckOrder(otps: map<string, int>, other: map<string, int>, text: string,
                          user: Option<string>, parseInt: string -> Option<int>)
    ensures var params := Text.Split(text);
      var c := Confirm(otps, text, user, parseInt);
      && (c == WrongArity <==> |params| != 2)
      && (c == InvalidFormat <==> |params| == 2 && parseInt(params[1]).None?)
      && (c == Verified <==>
            |params| == 2 && parseInt(params[1]).Some?
            && user.Some? && Lookup(otps, user.value) == Some(parseInt(params[1]).value))
      && (c == WrongArity || c == InvalidFormat ==> Confirm(other, text, user, parseInt) == c)
  {
  }

  /** `/confirm <token>` splits into the command and the token. */
  lemma ConfirmCommandTokens(token: string)
    requires Text.IsWord(token)
    ensures Text.Split("/confirm " + token) == ["/confirm", token]
  {
    var ws := ["/confirm", token];
    assert Text.Join(ws) == "/confirm" + " " + Text.Join([token]);
    assert "/confirm " + token == Text.Join(ws);
    Text.SplitJoin(ws);
  }

  /**
   * After /verify stores a code, confirming with that code verifies (again and
   * again, since nothing removes it), a different code is rejected, and other
   * users' confirmations are unaffected.
   */
  lemma IssueThenConfirm(otps: map<string, int>, user: string, code: int, token: string,
                         parseInt: string -> Option<int>)
    requires OtpMin <= code <= OtpMax
    requires Text.IsWord(token) && parseInt(token).Some?
    ensures var issued := Issue(otps, Some(user), code).table;
      var c := Confirm(issued, "/confirm " + token, Some(user), parseInt);
      && (parseInt(token) == Some(code) ==> c == Verified)
      && (parseInt(token) != Some(code) ==> c == Rejected)
      && forall someone :: someone != user ==>
           Confirm(issued, "/confirm " + token, Some(someone), parseInt)
           == Confirm(otps, "/confirm " + token, Some(someone), parseInt)
  {
    ConfirmCommandTokens(token);
  }
}
