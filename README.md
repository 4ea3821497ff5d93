# SendIt ledger and transaction engine, in Dafny

SendIt is a small play-money service: users check and send a balance identified
by a username through a web form, and prove control of a Telegram username with
a one-time passcode (OTP). This project models its core: the two keyed tables
`user_balances` (username → balance) and `user_otps` (username → code), the
store primitives `get_balance` and `update_balance`, the lazy-faucet balance
check, the transfer engine, and the `/verify` and `/confirm` OTP handshake.

Layout:

- `wrappers.dfy` — `Option`, for absent form fields, absent rows and failed parses.
- `text.dfy` — Python's `str.split()` with no separator, which `/confirm` uses to cut the message into tokens, with the proofs that it drops white space and nothing else and that it undoes joining.
- `store.dfy` — the tables as maps: `Lookup` (SELECT … WHERE username = ?), `Upsert` (INSERT or UPDATE, and REPLACE INTO), and `Total`, the sum of all balances.
- `engine.dfy` — each handler as a pure transition from the table it touches and its inputs to an outcome and the new table, with the lemmas stating what the handlers promise.
- `sendit.dfy` — class `Database` with the two tables as `map` fields, and the handlers as methods that follow the source step by step (reads, faucet writes, early returns, the two final writes) and are proved to produce exactly the transitions of `engine.dfy`.

Outcomes replace the flashed or replied texts: `CurrentBalance`/`UsernameRequired`
for `/balance`; `Success`, `MissingFields`, `InvalidAmount`, `SelfTransfer`,
`InsufficientFunds` for `/send_money`; `OtpIssued`/`NoUsername` for `/verify`;
`WrongArity` (token count other than 2), `InvalidFormat` (non-integer code),
`Verified`, `Rejected` for `/confirm`.

The model follows the code as written, including these behaviours:

- Amounts are not checked for sign; a negative amount succeeds when the sender's balance is at least that amount and moves money from the receiver to the sender (`Engine.NegativeAmountAccepted`), so balances can go negative.
- A sender seen for the first time is saved at 1000.0 before the self-transfer and funds checks, so an `InsufficientFunds` or `SelfTransfer` rejection is not free of writes for a new sender.
- `/verify` refuses only a user with no username at all; it does not test for an empty one.
- `/confirm` has two different format replies (wrong token count, non-integer code); they are kept apart.
- OTPs are never removed after a confirmation, so a code can be replayed until the next `/verify`.
- A `/confirm` from a user without a username looks up a NULL key, which matches no row: `Rejected`.

## Model

| member | source | states |
|---|---|---|
| SendIt.Database.constructor | sendit_telegram_app.py:30-46 | a fresh database has both tables empty (and every stored code trivially in range) |
| SendIt.Database.GetBalance | sendit_telegram_app.py:52-61 | reads only; returns None exactly when the username has no row, otherwise that row's balance |
| SendIt.Database.UpdateBalance | sendit_telegram_app.py:63-71 | the balances table becomes the upsert of the old one; the OTP table is unchanged |
| Store.Upsert | sendit_telegram_app.py:63-71 | after the write the row holds the new value, every other username reads as before, and the key set gains at most that username |
| Store.UpsertOverwrite | sendit_telegram_app.py:91 | the last write to a row wins, as REPLACE INTO overwrites an earlier code |
| Store.UpsertIdempotent | sendit_telegram_app.py:63-71 | writing the same amount twice equals writing it once |
| Store.TotalUpsert | sendit_telegram_app.py:63-71 | an upsert changes the sum of all balances by the new value minus the old one (0.0 for a new row) |
| Engine.CheckBalanceFaucet | sendit_telegram_app.py:125-131 | a non-empty never-seen username gets 1000.0, that row is saved, and no other row changes |
| Engine.CheckBalanceKnown | sendit_telegram_app.py:126-128 | a username with a row gets its stored balance and the table is left as it was |
| Engine.CheckBalanceRepeat | sendit_telegram_app.py:125-133 | a second check returns the same outcome and writes nothing more: the faucet runs once |
| Engine.CheckBalanceNoUsername | sendit_telegram_app.py:125-133 | an absent or empty username yields UsernameRequired and changes nothing |
| Engine.CheckBalanceTotal | sendit_telegram_app.py:125-133 | a balance check adds 1000.0 to the total of all balances for a new username and nothing otherwise |
| SendIt.Database.ResolveBalance | sendit_telegram_app.py:127-130 | the lazy faucet: returns the stored balance, or 1000.0 for a username with no row, and the table becomes its upsert with that value (no change for a known username) |
| SendIt.Database.CheckBalanceWeb | sendit_telegram_app.py:123-134 | the step-by-step handler returns the outcome and leaves the balances of Engine.CheckBalance; OTPs unchanged |
| Engine.TransferCheckOrder | sendit_telegram_app.py:142-157 | each outcome occurs exactly when all earlier checks passed and its own failed: fields, then parse, then self-transfer, then funds; the first two write nothing |
| Engine.SelfTransferRejected | sendit_telegram_app.py:146-153 | sender equal to receiver always gives SelfTransfer whatever the balance; the only write is the 1000.0 row of a new sender |
| Engine.InsufficientFundsEffect | sendit_telegram_app.py:155-157 | InsufficientFunds exactly when the (faucet-resolved) sender balance is below the amount, so the full balance may be sent; the receiver's row is untouched |
| Engine.TransferSuccessEffect | sendit_telegram_app.py:159-165 | on success the sender holds old minus amount, the receiver old (0.0 if new, not 1000.0) plus amount, their sum is conserved, and no other row changes |
| Engine.NegativeAmountAccepted | sendit_telegram_app.py:145-165 | with no sign check, every negative amount the sender's balance covers succeeds: the sender ends above its balance (minus the amount) and the receiver below its balance (0.0 if new, plus the amount) |
| Engine.TransferRoundTrip | sendit_telegram_app.py:164-165 | A→B then B→A by the same amount: the second succeeds exactly when B did not start negative, and then both rows are back at their post-lookup values |
| Engine.TransferTotal | sendit_telegram_app.py:145-165 | the total of all balances is unchanged, except for the 1000.0 the faucet grants a new sender once the amount has parsed |
| SendIt.Database.OpenReceiver | sendit_telegram_app.py:159-162 | returns the receiver's stored balance or 0.0, and the table becomes its upsert with that value |
| SendIt.Database.Settle | sendit_telegram_app.py:159-165 | after the receiver lookup and the two writes the sender holds the given balance minus the amount and the receiver its old balance (0.0 if new) plus the amount; the opening row of a new receiver is overwritten |
| SendIt.Database.SendMoneyWeb | sendit_telegram_app.py:136-169 | the step-by-step handler returns the outcome and leaves the balances of Engine.Transfer; OTPs unchanged |
| Engine.IssueEffect | sendit_telegram_app.py:84-91 | no username: NoUsername and no write; otherwise the user's code is replaced by the issued one and other users' codes stay; codes stay in [100000, 999999] |
| SendIt.Database.SendVerification | sendit_telegram_app.py:82-94 | the handler's outcome and OTP table are those of Engine.Issue, the balances are unchanged, and all stored codes stay in range |
| Text.WordLength | sendit_telegram_app.py:99 | the length of the leading run of non-space characters: all before it are non-space, the next one is space |
| Text.Split | sendit_telegram_app.py:99 | every token is non-empty and holds no white space |
| Text.SplitKeepsNonSpace | sendit_telegram_app.py:99 | the tokens concatenated are the input with its white space removed: no other character is lost |
| Text.SplitJoin | sendit_telegram_app.py:99 | splitting tokens joined by single spaces gives the tokens back |
| Engine.ConfirmCommandTokens | sendit_telegram_app.py:99-100 | `/confirm <token>` splits into exactly two tokens, the command and the token |
| Engine.ConfirmCheckOrder | sendit_telegram_app.py:99-115 | wrong token count first, then a non-integer code, both decided without the table; Verified exactly when the user has a stored code equal to the parsed one |
| Engine.IssueThenConfirm | sendit_telegram_app.py:88-111 | after /verify stores a code, confirming with it verifies, with another code is rejected, and other users' confirmations are unaffected |
| SendIt.Database.GetOtp | sendit_telegram_app.py:105-109 | reads only; None exactly when the user has no pending code, otherwise that code |
| SendIt.Database.ConfirmVerification | sendit_telegram_app.py:96-115 | returns Engine.Confirm on the current table and modifies nothing, so a verified code verifies again; a verified code is in range |

## Left out

- Flask rendering: `render_template`, `flash`, `redirect` and the `/` page; outcomes are result values instead of texts (the balance formatting with two decimals is not modelled).
- Telegram transport: bot setup, `reply_to`, the `/start` welcome and the `/webhook` dispatch, which are network I/O.
- Configuration, logging and `app.run`.
- SQLite connections and `init_db` against an existing file: the tables are two in-memory maps and the model starts from empty tables.
- SendIt.Database.SendMoneyWeb: the catch-all `except Exception` for storage errors is treated as never firing; no `StorageFailure` outcome is modelled.
- Floating point: balances and amounts are exact reals, so NaN and infinities do not exist and Engine.TransferRoundTrip restores balances exactly where Python floats may round.
- Parsing: Python's `float()` and `int()` are function parameters returning `Option`; the model only uses whether a parse succeeded and its value.
- Randomness: the code `random.randint` draws is a parameter of SendIt.Database.SendVerification, required to lie in [100000, 999999].
- Concurrency: the lost-update and double-spend races between separate connections; the model is sequential.
