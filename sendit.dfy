/**
 * The database the handlers of sendit_telegram_app.py share, and the handlers
 * themselves, written step by step as the source runs them and proved against
 * the transitions of module Engine.
 */
module SendIt {
  import opened Wrappers
  import opened Store
  import opened Engine
  import Text

  class Database {
    /** Table `user_balances`: username -> balance. */
    var userBalances: map<string, real>
    /** Table `user_otps`: username -> pending code. */
    var userOtps: map<string, int>

    /** Every pending code was drawn from [100000, 999999]. */
    ghost predicate Valid()
      reads this
    {
      CodesInRange(userOtps)
    }

    /** `init_db` on a fresh database file: both tables exist and are empty. */
    constructor ()
      ensures Valid()
      ensures userBalances == map[] && userOtps == map[]
    {
      userBalances := map[];
      userOtps := map[];
    }

    /** `get_balance`: the stored balance, or None exactly when there is no row. */
    function GetBalance(username: string): (r: Option<real>)
      reads this
      ensures r.None? <==> username !in userBalances
      ensures r.Some? ==> r.value == userBalances[username]
    {
      Lookup(userBalances, username)
    }

    /** The pending code of a user, or None when there is no row. */
    function GetOtp(username: string): (r: Option<int>)
      reads this
      ensures r.None? <==> username !in userOtps
      ensures r.Some? ==> r.value == userOtps[username]
    {
      Lookup(userOtps, username)
    }

    /**
     * `update_balance`: INSERT when no row exists, UPDATE otherwise; both SQL
     * branches leave the row holding `amount`, so both are one map update.
     */
    method UpdateBalance(username: string, amount: real)
      modifies this
      ensures userBalances == Upsert(old(userBalances), username, amount)
      ensures userOtps == old(userOtps)
    {
      userBalances := userBalances[username := amount];
    }

    /** POST /balance (`check_balance_web`). */
    method CheckBalanceWeb(username: Option<string>) returns (r: BalanceOutcome)
      requires Valid()
      modifies this
      ensures Valid()
      ensures r == CheckBalance(old(userBalances), username).outcome
      ensures userBalances == CheckBalance(old(userBalances), username).table
      ensures userOtps == old(userOtps)
    {
      if !Filled(username) {
        return UsernameRequired;
      }
      var balance := ResolveBalance(username.value);
      r := CurrentBalance(balance);
    }

    /**
     * POST /send_money (`send_money_web`): the field check, the amount parse,
     * the sender lookup with its faucet write, the self-transfer check, the
     * funds check, the receiver lookup with its opening write, and the two
     * balance writes, in that order.
     */
    method SendMoneyWeb(sender: Option<string>, receiver: Option<string>, amount: Option<string>,
                        parseAmount: string -> Option<real>) returns (r: TransferOutcome)
      requires Valid()
      modifies this
      ensures Valid()
      ensures r == Transfer(old(userBalances), sender, receiver, amount, parseAmount).outcome
      ensures userBalances == Transfer(old(userBalances), sender, receiver, amount, parseAmount).table
      ensures userOtps == old(userOtps)
    {
      if !Filled(sender) || !Filled(receiver) || !Filled(amount) {
        return MissingFields;
      }
      var parsed := parseAmount(amount.value);
      if parsed.None? {
        return InvalidAmount;
      }
      var x := parsed.value;
      var s, t := sender.value, receiver.value;
      ghost var before := userBalances;

      var senderBalance := ResolveBalance(s);
      ghost var withSender := userBalances;
      if s == t {
        return SelfTransfer;
      }
      if senderBalance < x {
        return InsufficientFunds;
      }

      Settle(s, t, senderBalance, x);
      r := Success(x, t);
      assert ReceiverBalance(withSender, t) == ReceiverBalance(before, t);
      assert userBalances == Upsert(Upsert(withSender, s, senderBalance - x), t, ReceiverBalance(before, t) + x);
      // The sender's faucet row, if any, is overwritten by the debit.
      UpsertOverwrite(before, s, senderBalance, senderBalance - x);
      TransferPasses(before, sender, receiver, amount, parseAmount, x);
    }

    /**
     * The end of a transfer that passed its checks: the receiver lookup with its
     * write of a 0.0 row for a new receiver, then the debit and the credit.
     */
    method Settle(sender: string, receiver: string, senderBalance: real, amount: real)
      requires sender != receiver
      modifies this
      ensures userBalances == Upsert(Upsert(old(userBalances), sender, senderBalance - amount),
                                     receiver, ReceiverBalance(old(userBalances), receiver) + amount)
      ensures userOtps == old(userOtps)
    {
      ghost var before := userBalances;
      var receiverBalance := OpenReceiver(receiver);
      ghost var withReceiver := userBalances;
      UpdateBalance(sender, senderBalance - amount);
      ghost var debited := userBalances;
      UpdateBalance(receiver, receiverBalance + amount);
      assert debited == Upsert(withReceiver, sender, senderBalance - amount);
      assert userBalances == Upsert(debited, receiver, receiverBalance + amount);
      // The receiver's opening row is overwritten by the credit.
      UpsertRewrite(before, receiver, sender, receiverBalance, senderBalance - amount, receiverBalance + amount);
    }

    /** The receiver lookup of `send_money_web`, with its write of a 0.0 row for a new receiver. */
    method OpenReceiver(receiver: string) returns (balance: real)
      modifies this
      ensures balance == ReceiverBalance(old(userBalances), receiver)
      ensures userBalances == Upsert(old(userBalances), receiver, balance)
      ensures userOtps == old(userOtps)
    {
      match GetBalance(receiver) {
        case Some(b) =>
          balance := b;
          assert userBalances == Upsert(userBalances, receiver, b);
        case None =>
          balance := ReceiverOpeningBalance;
          UpdateBalance(receiver, balance);
      }
    }

    /**
     * The lazy faucet of `check_balance_web` and `send_money_web`: the stored
     * balance, or 1000.0 written and returned for a username with no row.
     */
    method ResolveBalance(username: string) returns (balance: real)
      modifies this
      ensures balance == OpeningBalance(old(userBalances), username)
      ensures userBalances == Upsert(old(userBalances), username, balance)
      ensures userOtps == old(userOtps)
    {
      match GetBalance(username) {
        case Some(b) =>
          balance := b;
          assert userBalances == Upsert(userBalances, username, b);
        case None =>
          balance := StartingBalance;
          UpdateBalance(username, balance);
      }
    }

    /**
     * /verify (`send_verification`): `code` stands for the draw of
     * `random.randint(100000, 999999)`.
     */
    method SendVerification(user: Option<string>, code: int) returns (r: VerifyOutcome)
      requires Valid()
      requires OtpMin <= code <= OtpMax
      modifies this
      ensures Valid()
      ensures r == Issue(old(userOtps), user, code).outcome
      ensures userOtps == Issue(old(userOtps), user, code).table
      ensures userBalances == old(userBalances)
    {
      if user.None? {
        return NoUsername;
      }
      userOtps := userOtps[user.value := code];  // REPLACE INTO
      r := OtpIssued(code);
    }

    /**
     * /confirm (`confirm_verification`): reads the table and never writes it,
     * so a code that verified once verifies again until /verify replaces it.
     */
    method ConfirmVerification(text: string, user: Option<string>,
                               parseInt: string -> Option<int>) returns (r: ConfirmOutcome)
      ensures r == Confirm(userOtps, text, user, parseInt)
      ensures Valid() && r == Verified ==> OtpMin <= userOtps[user.value] <= OtpMax
    {
      var params := Text.Split(text);
      if |params| != 2 {
        return WrongArity;
      }
      var parsed := parseInt(params[1]);
      if parsed.None? {
        return InvalidFormat;
      }
      var row := if user.Some? then GetOtp(user.value) else None;
      if row.Some? && row.value == parsed.value {
        r := Verified;
      } else {
        r := Rejected;
      }
    }
  }
}
