/**
 * The effect of each SQL statement sequence of main.py on the two tables it
 * touches: `user_stats` (user id to row) and `users` (user id to referrer id,
 * `None` for NULL). A statement that raises leaves its transaction uncommitted,
 * so an `Err` result stands for "nothing changed".
 */
module Tables {
  import opened Wrappers
  import opened Stats

  type StatTable = map<int, Stat>
  type UserTable = map<int, Option<int>>

  /** The errors the database raises on these statements. */
  datatype DbError =
    | ForeignKeyViolation   // inserting a user_stats row for a user missing from users
    | NumericOutOfRange     // a column's new value does not fit INT or BIGINT

  /** `MIN_DEPOSIT_UZS`: the least deposit that earns the referrer a bonus. */
  const MinDeposit: int := 5000
  /** `REFERRAL_BONUS_UZS`: what the referrer's referral balance gains. */
  const ReferralBonus: int := 500

  /** user_stats.user_id REFERENCES users(user_id). */
  predicate Consistent(stats: StatTable, users: UserTable)
  {
    stats.Keys <= users.Keys
  }

  // ---------------------------------------------------------------------------
  // check_reset_weekly

  /** The row is missing, or its week began before this week's Monday. */
  predicate NeedsReset(stats: StatTable, userId: int, today: int)
  {
    userId !in stats || stats[userId].weekStart < StartOfWeek(today)
  }

  /** The INSERT ... ON CONFLICT DO UPDATE of `check_reset_weekly`, run only when a reset is due. */
  function AfterReset(stats: StatTable, users: UserTable, userId: int, today: int): (r: Result<StatTable, DbError>)
    ensures r.Ok? ==> userId in r.value && r.value[userId].weekStart >= StartOfWeek(today)
    ensures r.Err? ==> r.error == ForeignKeyViolation
  {
    var monday := StartOfWeek(today);
    if !NeedsReset(stats, userId, today) then Ok(stats)
    else if userId in stats then Ok(stats[userId := Renewed(stats[userId], monday)])
    else if userId in users then Ok(stats[userId := NewRow(monday)])
    else Err(ForeignKeyViolation)
  }

  /** The reset fails only for a user who has neither a stats row nor a users row. */
  lemma ResetFailsOnlyForUnknownUser(stats: StatTable, users: UserTable, userId: int, today: int)
    ensures AfterReset(stats, users, userId, today).Err? <==> userId !in stats && userId !in users
  {
  }

  /**
   * After a reset the row exists and belongs to this week or a later one; when a
   * reset was due its week is exactly this week's Monday and every flag is TRUE,
   * while money and counters are what they were.
   */
  lemma ResetEffect(stats: StatTable, users: UserTable, userId: int, today: int)
    requires AfterReset(stats, users, userId, today).Ok?
    ensures var r := AfterReset(stats, users, userId, today).value;
      && userId in r
      && r[userId].weekStart >= StartOfWeek(today)
      && (NeedsReset(stats, userId, today) ==> r[userId].weekStart == StartOfWeek(today) && r[userId].AllFree())
      && (!NeedsReset(stats, userId, today) ==> r == stats)
      && (userId in stats ==> r[userId].SameMoney(stats[userId]))
      && r.Keys == stats.Keys + {userId}
      && (forall k :: k in stats && k != userId ==> r[k] == stats[k])
  {
  }

  /** A newly inserted row has this week's Monday, every flag TRUE and zero balances and counters. */
  lemma ResetInsertsDefaults(stats: StatTable, users: UserTable, userId: int, today: int)
    requires userId !in stats && userId in users
    ensures AfterReset(stats, users, userId, today).Ok?
    ensures var row := AfterReset(stats, users, userId, today).value[userId];
      && row.weekStart == StartOfWeek(today) && row.AllFree()
      && row.balance == 0 && row.referralBalance == 0
      && row.totalPaidConversions == 0 && row.totalSpent == 0
  {
  }

  /** A second reset in the same week changes nothing. */
  lemma ResetIdempotentWithinWeek(stats: StatTable, users: UserTable, userId: int, today: int, later: int)
    requires AfterReset(stats, users, userId, today).Ok?
    requires StartOfWeek(later) == StartOfWeek(today)
    ensures var r := AfterReset(stats, users, userId, today).value;
      AfterReset(r, users, userId, later) == Ok(r)
  {
  }

  /** Once a reset is due, i.e. today lies in a later week than the stored one, the flags come back. */
  lemma ResetInLaterWeek(stats: StatTable, users: UserTable, userId: int, today: int)
    requires userId in stats && stats[userId].weekStart < StartOfWeek(today)
    ensures AfterReset(stats, users, userId, today) ==
      Ok(stats[userId := Renewed(stats[userId], StartOfWeek(today))])
  {
  }

  lemma ResetKeepsConsistent(stats: StatTable, users: UserTable, userId: int, today: int)
    requires Consistent(stats, users)
    ensures AfterReset(stats, users, userId, today).Ok? ==>
      Consistent(AfterReset(stats, users, userId, today).value, users)
  {
  }

  // ---------------------------------------------------------------------------
  // update_stat_and_balance

  /** The paid path's new row: one more paid conversion, `amount` more spent, `amount` less balance. */
  function Charged(s: Stat, amount: int): Stat
  {
    s.(totalPaidConversions := s.totalPaidConversions + 1,
       totalSpent := s.totalSpent + amount,
       balance := s.balance - amount)
  }

  predicate ChargeFits(s: Stat, amount: int)
  {
    IsInt32(s.totalPaidConversions + 1) && IsInt64(s.totalSpent + amount) && IsInt64(s.balance - amount)
  }

  /**
   * The UPDATE of `update_stat_and_balance`; an UPDATE of a missing row changes
   * nothing. The file type matters only on the free path, where it names the column.
   */
  function AfterCommit(stats: StatTable, userId: int, fileType: string, isPaid: bool, amount: int): (r: Result<StatTable, DbError>)
    requires !isPaid ==> CategoryOf(fileType).Some?
    ensures r.Ok? ==> r.value.Keys == stats.Keys
    ensures r.Err? ==> isPaid && r.error == NumericOutOfRange
  {
    if userId !in stats then Ok(stats)
    else if !isPaid then Ok(stats[userId := stats[userId].WithFree(CategoryOf(fileType).value, false)])
    else if ChargeFits(stats[userId], amount) then Ok(stats[userId := Charged(stats[userId], amount)])
    else Err(NumericOutOfRange)
  }

  /** The free path clears exactly the category's flag of that user and nothing else. */
  lemma FreeCommitEffect(stats: StatTable, userId: int, c: Category, amount: int)
    requires userId in stats
    ensures AfterCommit(stats, userId, FileType(c), false, amount).Ok?
    ensures var r := AfterCommit(stats, userId, FileType(c), false, amount).value;
      && r.Keys == stats.Keys
      && !r[userId].Free(c)
      && (forall d :: d != c ==> r[userId].Free(d) == stats[userId].Free(d))
      && r[userId].SameMoney(stats[userId])
      && r[userId].weekStart == stats[userId].weekStart
      && (forall k :: k in stats && k != userId ==> r[k] == stats[k])
  {
  }

  /**
   * The paid path moves `amount` from the balance to the amount spent and counts
   * one more paid conversion; flags and week stay. There is no funds check: the
   * balance may become negative. It fails only when a counter overflows its column.
   */
  lemma PaidCommitEffect(stats: StatTable, userId: int, fileType: string, amount: int)
    requires userId in stats
    ensures AfterCommit(stats, userId, fileType, true, amount).Ok? <==> ChargeFits(stats[userId], amount)
    ensures AfterCommit(stats, userId, fileType, true, amount).Ok? ==>
      var r := AfterCommit(stats, userId, fileType, true, amount).value;
      && r.Keys == stats.Keys
      && r[userId].balance == stats[userId].balance - amount
      && r[userId].totalSpent == stats[userId].totalSpent + amount
      && r[userId].totalPaidConversions == stats[userId].totalPaidConversions + 1
      && r[userId].referralBalance == stats[userId].referralBalance
      && r[userId].SameFlags(stats[userId])
      && r[userId].weekStart == stats[userId].weekStart
      && (forall k :: k in stats && k != userId ==> r[k] == stats[k])
  {
  }

  /** A commit for a user without a row is a no-op. */
  lemma CommitWithoutRow(stats: StatTable, userId: int, fileType: string, isPaid: bool, amount: int)
    requires userId !in stats
    requires !isPaid ==> CategoryOf(fileType).Some?
    ensures AfterCommit(stats, userId, fileType, isPaid, amount) == Ok(stats)
  {
  }

  /** Paying with a balance of 0 leaves it negative: the debit itself does not check funds. */
  lemma PaidCommitCanOverdraw(stats: StatTable, userId: int, fileType: string)
    requires userId in stats && stats[userId] == NewRow(0)
    ensures AfterCommit(stats, userId, fileType, true, 1300) == Ok(stats[userId := NewRow(0).(balance := -1300, totalSpent := 1300, totalPaidConversions := 1)])
  {
  }

  // ---------------------------------------------------------------------------
  // deposit_balance

  /** The referrer a bonus goes to: the users row exists and its referrer_id is neither NULL nor 0. */
  function ReferrerOf(users: UserTable, userId: int): Option<int>
  {
    if userId in users && users[userId].Some? && users[userId].value != 0 then users[userId] else None
  }

  /** Whether a deposit of `amount` by `depositor` earns `k` the referral bonus. */
  predicate EarnsBonus(users: UserTable, depositor: int, amount: int, k: int)
  {
    amount >= MinDeposit && ReferrerOf(users, depositor) == Some(k)
  }

  /** The first UPDATE: credit the depositor's balance (no row, no change). */
  function Credited(stats: StatTable, userId: int, amount: int): (r: Result<StatTable, DbError>)
    ensures r.Ok? ==> r.value.Keys == stats.Keys
  {
    if userId !in stats then Ok(stats)
    else if IsInt64(stats[userId].balance + amount) then
      Ok(stats[userId := stats[userId].(balance := stats[userId].balance + amount)])
    else Err(NumericOutOfRange)
  }

  /** The second UPDATE: add the bonus to the referrer's referral balance (no row, no change). */
  function BonusPaid(stats: StatTable, referrer: int): (r: Result<StatTable, DbError>)
    ensures r.Ok? ==> r.value.Keys == stats.Keys
  {
    if referrer !in stats then Ok(stats)
    else if IsInt64(stats[referrer].referralBalance + ReferralBonus) then
      Ok(stats[referrer := stats[referrer].(referralBalance := stats[referrer].referralBalance + ReferralBonus)])
    else Err(NumericOutOfRange)
  }

  /** `deposit_balance`: both UPDATEs in one transaction, the second only for a qualifying deposit. */
  function AfterDeposit(stats: StatTable, users: UserTable, userId: int, amount: int): (r: Result<StatTable, DbError>)
    ensures r.Ok? ==> r.value.Keys == stats.Keys
    ensures r.Err? ==> r.error == NumericOutOfRange
  {
    match Credited(stats, userId, amount)
    case Err(e) => Err(e)
    case Ok(credited) =>
      if amount >= MinDeposit && ReferrerOf(users, userId).Some? then
        BonusPaid(credited, ReferrerOf(users, userId).value)
      else Ok(credited)
  }

  /**
   * A deposit adds `amount` to the depositor's balance and the bonus to the
   * referral balance of exactly the user who earns it; every other column and row
   * is as it was, and no row is inserted.
   */
  lemma {:induction false} DepositEffect(stats: StatTable, users: UserTable, userId: int, amount: int)
    requires AfterDeposit(stats, users, userId, amount).Ok?
    ensures var r := AfterDeposit(stats, users, userId, amount).value;
      && r.Keys == stats.Keys
      && forall k :: k in stats ==>
           r[k] == stats[k].(balance := stats[k].balance + (if k == userId then amount else 0),
                             referralBalance := stats[k].referralBalance +
                               (if EarnsBonus(users, userId, amount, k) then ReferralBonus else 0))
  {
    var credited := Credited(stats, userId, amount).value;
    var r := AfterDeposit(stats, users, userId, amount).value;
    if amount >= MinDeposit && ReferrerOf(users, userId).Some? {
      var referrer := ReferrerOf(users, userId).value;
      assert r == BonusPaid(credited, referrer).value;
      forall k | k in stats
        ensures r[k] == stats[k].(balance := stats[k].balance + (if k == userId then amount else 0),
                                  referralBalance := stats[k].referralBalance +
                                    (if EarnsBonus(users, userId, amount, k) then ReferralBonus else 0))
      {
        assert EarnsBonus(users, userId, amount, k) <==> k == referrer;
      }
    } else {
      assert r == credited;
      forall k | k in stats
        ensures r[k] == stats[k].(balance := stats[k].balance + (if k == userId then amount else 0),
                                  referralBalance := stats[k].referralBalance +
                                    (if EarnsBonus(users, userId, amount, k) then ReferralBonus else 0))
      {
        assert !EarnsBonus(users, userId, amount, k);
      }
    }
  }

  /**
   * The referral balance of a user with a row grows, by exactly 500, if and only
   * if the deposit is at least 5000 and that user is the depositor's non-zero referrer.
   */
  lemma ReferralBonusIff(stats: StatTable, users: UserTable, userId: int, amount: int, k: int)
    requires AfterDeposit(stats, users, userId, amount).Ok? && k in stats
    ensures var r := AfterDeposit(stats, users, userId, amount).value;
      && k in r
      && (r[k].referralBalance != stats[k].referralBalance <==>
            amount >= MinDeposit && userId in users && users[userId] == Some(k) && k != 0)
      && r[k].referralBalance - stats[k].referralBalance in {0, ReferralBonus}
  {
    DepositEffect(stats, users, userId, amount);
  }

  /** A deposit fails only when a new balance does not fit BIGINT. */
  lemma DepositFailsOnlyOnOverflow(stats: StatTable, users: UserTable, userId: int, amount: int)
    ensures AfterDeposit(stats, users, userId, amount).Err? <==>
      (userId in stats && !IsInt64(stats[userId].balance + amount)) ||
      (exists k :: EarnsBonus(users, userId, amount, k) && k in stats &&
                   !IsInt64(stats[k].referralBalance + ReferralBonus))
  {
    if amount >= MinDeposit && ReferrerOf(users, userId).Some? {
      var k := ReferrerOf(users, userId).value;
      assert EarnsBonus(users, userId, amount, k);
    }
  }

  /** A deposit by someone with neither a stats row nor a users row (hence no referrer) is a no-op. */
  lemma DepositByUnknownUser(stats: StatTable, users: UserTable, userId: int, amount: int)
    requires userId !in stats && userId !in users
    ensures AfterDeposit(stats, users, userId, amount) == Ok(stats)
  {
  }

  lemma DepositKeepsConsistent(stats: StatTable, users: UserTable, userId: int, amount: int)
    requires Consistent(stats, users)
    ensures AfterDeposit(stats, users, userId, amount).Ok? ==>
      Consistent(AfterDeposit(stats, users, userId, amount).value, users)
  {
    if AfterDeposit(stats, users, userId, amount).Ok? {
      DepositEffect(stats, users, userId, amount);
    }
  }

  // ---------------------------------------------------------------------------
  // The admin's withdrawal confirmation

  /** `UPDATE user_stats SET referral_balance = 0 WHERE user_id = ...`. */
  function AfterPayout(stats: StatTable, userId: int): (r: StatTable)
    ensures r.Keys == stats.Keys
    ensures userId in stats ==> r[userId].referralBalance == 0
  {
    if userId in stats then stats[userId := stats[userId].(referralBalance := 0)] else stats
  }

  /** The payout zeroes that user's referral balance and nothing else. */
  lemma PayoutEffect(stats: StatTable, userId: int)
    ensures var r := AfterPayout(stats, userId);
      && r.Keys == stats.Keys
      && (userId in stats ==> r[userId] == stats[userId].(referralBalance := 0))
      && (forall k :: k in stats && k != userId ==> r[k] == stats[k])
  {
  }
}
