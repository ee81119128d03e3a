# Quota and balance ledger of a document-to-PDF chat bot

This project models, in Dafny, the bookkeeping core of a Telegram bot that converts
documents to PDF (`main.py`). Each user gets one free conversion per week in each of
four categories (docx, pptx, excel, txt). After that, conversions are paid from a
balance. The balance is topped up when the admin confirms a payment receipt, and a
qualifying deposit pays a fixed bonus to the depositor's referrer.

The model covers:

- **Pricing** (`Pricing`): `calculate_price` with exact reals. Python's `int()` is
  modelled as truncation toward zero (`Trunc`).
- **Weekly quota reset** (`Stats`, `Tables.AfterReset`, `Ledger.Store.CheckResetWeekly`).
  Dates are day numbers and day 0 is a Monday, so `date.weekday()` is `d % 7` and the
  week's Monday is `d - d % 7`.
- **Conversion commit** (`Tables.AfterCommit`, `Ledger.Store.UpdateStatAndBalance`).
  The free path clears the `free_<type>` flag named by the file type, one of four
  `Category` values. The paid path ignores the file type, debits the balance and bumps
  the counters.
- **Deposit with referral bonus** (`Tables.AfterDeposit`, `Ledger.Store.DepositBalance`).
  Also covered: the admin's payout step that zeroes `referral_balance`, and the admin's
  confirm-deposit callback. That callback is parsed from `deposit_confirm_<uid>_<amount>`
  (`Callback`, `Ledger.Store.ConfirmDeposit`).
- **Output file name** of a conversion (`Filenames`): the base name with its last
  extension replaced by `.pdf`, joined to the output directory.

The tables `user_stats` and `users` are two maps held by `Ledger.Store`. Each SQL
statement's effect on them is a pure function in `Tables`. Each method says its new
state is that function of the old state. The lemmas in `Tables` prove what the source
promises about those functions: what changes, what stays the same, when it fails, and
that a reset is idempotent within a week.

Database behaviour that the model keeps:

- An `UPDATE` of a missing row changes nothing.
- `user_stats.user_id` references `users`, so inserting a stats row for an unknown user
  fails (`ForeignKeyViolation`).
- A value that does not fit its column fails the statement (`NumericOutOfRange`).
  `balance`, `referral_balance` and `total_spent` are BIGINT; `total_paid_conversions`
  is INT.
- A failure means the transaction is never committed, so nothing changes.

Behaviour of the code worth knowing:

- The paid path has no funds check, so the balance can go negative
  (`Tables.PaidCommitCanOverdraw`).
- Take a user who has a `users` row but no `user_stats` row. A deposit by that user
  changes no balance, but still pays the referrer's bonus.
- A self-referral pays both the credit and the bonus into the same row.

## Model

| member | source | states |
|---|---|---|
| Pricing.Trunc | main.py:145 | `int()` truncates toward zero: the result is within 1 of the value, toward 0 |
| Pricing.CalculatePrice | main.py:139-145 | the price is never below 1300, for any size |
| Pricing.LowRatePrice | main.py:140-142 | up to 20 MB the price is the truncation of size*300+1000, raised to 1300 when below it, so it lies in [1300, 7000] |
| Pricing.HighRatePrice | main.py:143-145 | above 20 MB the price is the truncation of size*500+1000, with no floor, and is at least 11000 |
| Pricing.PriceAtBoundary | main.py:139-145 | 20 MB costs 7000 (low rate, inclusive bound); 20.0001 MB costs 11000; 25 MB costs 13500; 0 MB costs 1300 |
| Pricing.PriceMonotonic | main.py:139-145 | a larger file never costs less, across the 20 MB boundary too |
| Filenames.LastIndex | main.py:159 | the index of the last occurrence of a character, or -1 exactly when it is absent |
| Filenames.Basename | main.py:158 | the base name holds no '/' and is exactly the suffix after the last '/' (the whole path when there is none) |
| Filenames.Stem | main.py:159 | `rsplit('.', 1)[0]` is a prefix of the name; with a dot it stops at the last dot, without one it is the whole name |
| Filenames.PdfName | main.py:159 | the derived name always ends in `.pdf`; characterised by `PdfNameReplacesLastExtension` and `PdfNameWithoutExtension` |
| Filenames.JoinPath | main.py:160 | `os.path.join` ends with the name and, when the name is not absolute, starts with the directory |
| Filenames.ConvertedPath | main.py:150-164 | a path is returned exactly when the converter exits with 0; characterised by `ConvertedPathNaming` |
| Filenames.LastIndexOfSeparator | main.py:159 | in `a + c + b` with no `c` in `b`, the last `c` is the one at index `\|a\|` |
| Filenames.PdfNameReplacesLastExtension | main.py:159 | `stem.ext` becomes `stem.pdf` when `ext` has no dot: only the last extension is replaced |
| Filenames.PdfNameWithoutExtension | main.py:159 | a name without a dot gets `.pdf` appended |
| Filenames.PdfNameExample | main.py:159 | `a.b.docx` becomes `a.b.pdf`; `report` becomes `report.pdf` |
| Filenames.BasenameOfJoin | main.py:160 | joining a directory and a plain name yields a path whose base name is that name |
| Filenames.ConvertedPathNaming | main.py:150-164 | a path is returned exactly when the converter exits with 0. It starts with the output directory, and its base name is the input's base name with the last extension replaced by `.pdf` |
| Callback.Split | main.py:250 | `split('_')` yields at least one piece and no piece holds the separator |
| Callback.JoinSplit | main.py:250 | joining the pieces with the separator gives back the data |
| Callback.SplitWithoutSeparator | main.py:250 | a string without the separator splits into itself alone |
| Callback.SplitAtFirstSeparator | main.py:250 | splitting `a_b`, where `a` has no separator, gives `a` followed by the pieces of `b` |
| Callback.SplitFourPieces | main.py:250 | four separator-free pieces joined by the separator split back into those four |
| Callback.NatToString | main.py:296 | the decimal form of a number is a non-empty string of digits with no leading zero |
| Callback.DigitsValueOfNatToString | main.py:251-252 | reading the decimal form of `n` gives back `n` |
| Callback.ParseIntOfIntToString | main.py:251-252 | `int(str(i)) == i` for every integer, negatives included |
| Callback.IntToStringHasNoUnderscore | main.py:296 | the decimal form of an integer has no '_', so it survives the split as one piece |
| Callback.IntToString | main.py:296 | `str(i)`: non-empty, and starts with '-' exactly for a negative number; characterised by `ParseIntOfIntToString` |
| Callback.ConfirmData | main.py:296 | the button data starts with the routing prefix `deposit_confirm_`; characterised by `ConfirmDataRoundTrip` |
| Callback.ParseInt | main.py:251-252 | definition of `int()` on a sign and ASCII digits; characterised by `ParseIntOfIntToString` |
| Callback.ParseConfirmData | main.py:250-252 | definition of the handler's parse of pieces 2 and 3; characterised by `ConfirmDataRoundTrip` |
| Callback.ConfirmDataRoundTrip | main.py:250-252 | the data built for user `u` and amount `a` starts with the routing prefix and parses back to exactly `(u, a)` |
| Stats.CategoryOf | main.py:102 | each of the four lower-case file types `docx`, `pptx`, `excel`, `txt` selects the category whose `free_<type>` column it names, and no other category |
| Stats.Stat.WithFree | main.py:103 | setting one flag changes only that flag: the other flags, the week and all money columns are unchanged |
| Stats.Weekday | main.py:71 | the weekday is between 0 (Monday) and 6 |
| Stats.StartOfWeek | main.py:70-71 | the start of the week is a Monday, at most six days before today |
| Stats.StartOfWeekUnique | main.py:71 | only one Monday lies within the six days up to today |
| Stats.StartOfWeekMonotonic | main.py:71 | a later day never has an earlier week start |
| Stats.NewRow | main.py:52-59 | definition of the inserted row; its defaults are stated by `Tables.ResetInsertsDefaults` |
| Stats.Renewed | main.py:81 | definition of the ON CONFLICT update; its effect is stated by `Tables.ResetInLaterWeek` and `Tables.ResetEffect` |
| Tables.ResetFailsOnlyForUnknownUser | main.py:50 | the reset's insert fails exactly for a user with neither a stats row nor a users row |
| Tables.ResetEffect | main.py:73-82 | after the reset the row exists with a week start of at least this Monday. When a reset was due, the week start is exactly this Monday and all four flags are TRUE; otherwise nothing changed. Money and counters are kept, and other rows are unchanged |
| Tables.ResetInsertsDefaults | main.py:48-61 | a newly inserted row has this Monday, all flags TRUE, and zero balance, referral balance, paid conversions and spending |
| Tables.ResetIdempotentWithinWeek | main.py:70-83 | a second reset in the same week leaves the table as the first left it |
| Tables.ResetInLaterWeek | main.py:76-82 | a stored week older than this Monday is renewed to this Monday with all flags TRUE |
| Tables.ResetKeepsConsistent | main.py:50 | the reset only inserts rows for users who exist |
| Tables.AfterReset | main.py:73-82 | definition of the reset; on success the user's row exists with a week start of at least this Monday, and the only error is the foreign-key failure. Characterised by `ResetEffect` and `ResetIdempotentWithinWeek` |
| Tables.FreeCommitEffect | main.py:101-103 | the free path sets only that user's `free_<type>` to FALSE: other flags, week, money and other users are unchanged |
| Tables.PaidCommitEffect | main.py:104-111 | the paid path subtracts `amount` from the balance, adds it to total spent and adds 1 to paid conversions; flags and week are kept and other users are unchanged. It fails exactly when a new value overflows its column |
| Tables.CommitWithoutRow | main.py:103 | a commit for a user without a row changes nothing |
| Tables.PaidCommitCanOverdraw | main.py:105-111 | with no funds check, paying 1300 from a zero balance leaves it at -1300 |
| Tables.AfterCommit | main.py:101-111 | definition of the commit; it never adds or removes rows, and only the paid path can fail, by overflow. Characterised by `FreeCommitEffect` and `PaidCommitEffect` |
| Tables.DepositEffect | main.py:117-137 | a deposit adds `amount` to the depositor's balance and the 500 bonus to the referral balance of the one user who earns it. Every other column and row is unchanged and no row is inserted |
| Tables.ReferralBonusIff | main.py:125-133 | a user's referral balance changes, by exactly 500, if and only if the amount is at least 5000 and that user is the depositor's non-zero referrer |
| Tables.DepositFailsOnlyOnOverflow | main.py:122-133 | a deposit fails exactly when the depositor's new balance, or the bonus recipient's new referral balance, overflows BIGINT |
| Tables.DepositByUnknownUser | main.py:122-133 | a deposit by a user with no row and no users entry changes nothing |
| Tables.DepositKeepsConsistent | main.py:122-133 | a deposit never inserts a row |
| Tables.Credited | main.py:122 | definition of the balance UPDATE; it never adds or removes rows. Its effect and failure are stated by `Tables.DepositEffect` and `Tables.DepositFailsOnlyOnOverflow` |
| Tables.BonusPaid | main.py:132-133 | definition of the bonus UPDATE; it never adds or removes rows. Its effect and failure are stated by `Tables.DepositEffect` and `Tables.DepositFailsOnlyOnOverflow` |
| Tables.AfterDeposit | main.py:122-133 | definition of the deposit; it never adds or removes rows, and its only error is overflow. Characterised by `DepositEffect` and `ReferralBonusIff` |
| Tables.PayoutEffect | main.py:232 | the payout sets that user's referral balance to 0 and changes nothing else |
| Tables.AfterPayout | main.py:232 | definition of the payout; keeps every row and leaves that user's referral balance at 0. Characterised by `PayoutEffect` |
| Ledger.Store.CheckResetWeekly | main.py:67-86 | the new `user_stats` is the reset's effect on the old one, or is unchanged with the error; `users` is unchanged and the foreign key still holds |
| Ledger.Store.GetUserStat | main.py:88-96 | after the reset, returns the user's row (which then exists and belongs to this week or later), or the reset's error |
| Ledger.Store.UpdateStatAndBalance | main.py:98-114 | the new `user_stats` is the commit's effect on the old one, or is unchanged with the error |
| Ledger.Store.DepositBalance | main.py:117-137 | the new `user_stats` is the deposit's effect (credit, then a possible bonus), or is unchanged with the error; the two updates commit together |
| Ledger.Store.ZeroReferralBalance | main.py:229-235 | the new `user_stats` is the old one with that user's referral balance set to 0 |
| Ledger.Store.ConfirmDeposit | main.py:243-270 | only data with the `deposit_confirm_` prefix, pressed by the admin, with pieces 2 and 3 parsing as integers, leads to a deposit of that user and amount; every other case changes nothing |
| Ledger.ConfirmReceiptButton | main.py:296 | the admin pressing the button built for user `u` and amount `a` deposits exactly `a` for `u` |

## Left out

- A payment-gateway webhook, signature check or payment-transaction state machine: `main.py` has none of them. Its only deposit path is the manual admin confirmation.
- The confirm handler keeps no record of confirmed deposits, so a second callback with the same data credits again.
- main.py contains no caller of `update_stat_and_balance`. How the free or paid path is chosen, and whether funds are checked first, cannot be seen.
- Registration of users: main.py does not contain it (main.py:274 names `start_handler` as omitted). `Ledger.Store` is constructed from an existing `users` table.
- Stats.CategoryOf: only the four lower-case names are modelled. main.py:102-103 splices the file type into the SQL as an unquoted identifier, which PostgreSQL lower-cases. So other spellings such as `DOCX`, and names padded with spaces, may still select a column; the model treats them as outside its precondition.
- The parse of the admin's reply text in the withdrawal handler (main.py:209-217): its user id is read with a substring split and `strip()`. Only its database effect, the zeroing at main.py:232, is modelled.
- PostgreSQL connections, cursors and commits: they are modelled only as "a statement that raises commits nothing".
- Chat transport: messages, photos, captions, keyboards and FSM states.
- The `soffice` process: its exit status is a parameter of `Filenames.ConvertedPath`.
- Callback.ParseInt: accepts an optional sign and ASCII digits only. It does not model `int()`'s stripping of surrounding whitespace or its Unicode digits. Data built by main.py:296 from an integer amount holds neither.
- Stats.Stat: `week_start_date` is never NULL in the model, because every row is created by the reset's insert. A row created elsewhere with a NULL date would make the comparison at main.py:76 raise.
- Stats.StartOfWeek: dates are unbounded day numbers, so the calendar's year range is not modelled.
- `deposit_amount` in the FSM state (main.py:279-280) is taken to be an int; the handler that stores it is not in main.py.
- User ids and amounts are not checked against BIGINT as statement parameters; only the new column values are.
- File sizes are exact reals; floating-point rounding of `size_mb` is not modelled.
- Ledger.Store.ConfirmDeposit: when notifying the user or editing the caption raises after the deposit, the handler answers with an error but the deposit stands. The model reports `Deposited`, because the message calls are not modelled.
- Concurrency: two handlers interleaving their read-then-write steps is out of scope.
- Environment configuration (`BOT_TOKEN`, `ADMIN_ID`, `DATABASE_URL`): the admin id is a parameter.
