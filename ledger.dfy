/**
 * The two tables held in memory and updated in place by the functions and
 * admin handlers of main.py. Each method performs its SQL statements in order;
 * a statement that raises leaves the tables as they were (no commit).
 */
module Ledger {
  import opened Wrappers
  import opened Stats
  import opened Tables
  import Callback

  /** How the admin's confirm-deposit callback ends. */
  datatype ConfirmOutcome =
    | NotRouted                          // data does not start with "deposit_confirm_"
    | NotAdmin                           // pressed by someone other than the admin
    | Malformed                          // the split or an int() raised
    | DepositFailed(error: DbError)      // deposit_balance raised
    | Deposited(userId: int, amount: int)

  class Store {
    /** `user_stats`, by user id. */
    var stats: StatTable
    /** `users`, by user id: the referrer id, `None` for NULL. */
    var users: UserTable

    ghost predicate Valid()
      reads this
    {
      Consistent(stats, users)
    }

    /** An initial state: the given users table and no stats rows. */
    constructor (registered: UserTable)
      ensures Valid() && users == registered && stats == map[]
    {
      users := registered;
      stats := map[];
    }

    /** `check_reset_weekly`: insert or renew the row when its week is over. */
    method CheckResetWeekly(userId: int, today: int) returns (err: Option<DbError>)
      requires Valid()
      modifies this
      ensures Valid() && users == old(users)
      ensures match AfterReset(old(stats), users, userId, today)
              case Ok(t) => err == None && stats == t
              case Err(e) => err == Some(e) && stats == old(stats)
    {
      var monday := StartOfWeek(today);
      if userId !in stats || stats[userId].weekStart < monday {
        if userId in stats {
          stats := stats[userId := Renewed(stats[userId], monday)];
        } else if userId in users {
          stats := stats[userId := NewRow(monday)];
        } else {
          return Some(ForeignKeyViolation);
        }
      }
      return None;
    }

    /** `get_user_stat`: the row after the weekly reset; it always exists when the reset succeeds. */
    method GetUserStat(userId: int, today: int) returns (row: Result<Stat, DbError>)
      requires Valid()
      modifies this
      ensures Valid() && users == old(users)
      ensures row.Ok? <==> userId in old(stats) || userId in users
      ensures match AfterReset(old(stats), users, userId, today)
              case Ok(t) => stats == t && userId in stats && row == Ok(stats[userId])
              case Err(e) => stats == old(stats) && row == Err(e)
      ensures row.Ok? ==> row.value.weekStart >= StartOfWeek(today)
    {
      if AfterReset(stats, users, userId, today).Ok? {
        ResetEffect(stats, users, userId, today);
      }
      var err := CheckResetWeekly(userId, today);
      if err.Some? {
        return Err(err.value);
      }
      return Ok(stats[userId]);
    }

    /**
     * `update_stat_and_balance`: consume the free conversion of `fileType`, or
     * charge for a paid one. The free path needs one of the four column names.
     */
    method UpdateStatAndBalance(userId: int, fileType: string, isPaid: bool, amount: int) returns (err: Option<DbError>)
      requires Valid()
      requires !isPaid ==> CategoryOf(fileType).Some?
      modifies this
      ensures Valid() && users == old(users)
      ensures match AfterCommit(old(stats), userId, fileType, isPaid, amount)
              case Ok(t) => err == None && stats == t
              case Err(e) => err == Some(e) && stats == old(stats)
    {
      if userId in stats {
        var row := stats[userId];
        if !isPaid {
          stats := stats[userId := row.WithFree(CategoryOf(fileType).value, false)];
        } else {
          var charged := row.(totalPaidConversions := row.totalPaidConversions + 1,
                              totalSpent := row.totalSpent + amount,
                              balance := row.balance - amount);
          if !(IsInt32(charged.totalPaidConversions) && IsInt64(charged.totalSpent) && IsInt64(charged.balance)) {
            return Some(NumericOutOfRange);
          }
          stats := stats[userId := charged];
        }
      }
      return None;
    }

    /** `deposit_balance`: credit the balance, then pay the referral bonus on a qualifying deposit. */
    method DepositBalance(userId: int, amount: int) returns (err: Option<DbError>)
      requires Valid()
      modifies this
      ensures Valid() && users == old(users)
      ensures match AfterDeposit(old(stats), users, userId, amount)
              case Ok(t) => err == None && stats == t
              case Err(e) => err == Some(e) && stats == old(stats)
    {
      DepositKeepsConsistent(stats, users, userId, amount);
      var updated := stats;
      if userId in updated {
        var row := updated[userId];
        if !IsInt64(row.balance + amount) {
          return Some(NumericOutOfRange);
        }
        updated := updated[userId := row.(balance := row.balance + amount)];
      }
      if amount >= MinDeposit {
        if userId in users && users[userId].Some? && users[userId].value != 0 {
          var referrer := users[userId].value;
          if referrer in updated {
            var row := updated[referrer];
            if !IsInt64(row.referralBalance + ReferralBonus) {
              return Some(NumericOutOfRange);
            }
            updated := updated[referrer := row.(referralBalance := row.referralBalance + ReferralBonus)];
          }
        }
      }
      stats := updated;
      return None;
    }

    /** The payout step of the admin's withdrawal confirmation. */
    method ZeroReferralBalance(userId: int)
      requires Valid()
      modifies this
      ensures Valid() && users == old(users)
      ensures stats == AfterPayout(old(stats), userId)
    {
      if userId in stats {
        stats := stats[userId := stats[userId].(referralBalance := 0)];
      }
    }

    /**
     * `admin_confirm_deposit`: only the admin may confirm; the user id and the
     * amount come from pieces 2 and 3 of the callback data.
     */
    method ConfirmDeposit(callerId: int, adminId: int, data: string) returns (outcome: ConfirmOutcome)
      requires Valid()
      modifies this
      ensures Valid() && users == old(users)
      ensures !Callback.StartsWith(data, Callback.ConfirmPrefix) ==> outcome == NotRouted && stats == old(stats)
      ensures Callback.StartsWith(data, Callback.ConfirmPrefix) && callerId != adminId ==>
        outcome == NotAdmin && stats == old(stats)
      ensures Callback.StartsWith(data, Callback.ConfirmPrefix) && callerId == adminId ==>
        match Callback.ParseConfirmData(data)
        case None => outcome == Malformed && stats == old(stats)
        case Some((u, a)) =>
          match AfterDeposit(old(stats), users, u, a)
          case Ok(t) => outcome == Deposited(u, a) && stats == t
          case Err(e) => outcome == DepositFailed(e) && stats == old(stats)
    {
      if !Callback.StartsWith(data, Callback.ConfirmPrefix) {
        return NotRouted;
      }
      if callerId != adminId {
        return NotAdmin;
      }
      var parsed := Callback.ParseConfirmData(data);
      if parsed.None? {
        return Malformed;
      }
      var (u, a) := parsed.value;
      var err := DepositBalance(u, a);
      if err.Some? {
        return DepositFailed(err.value);
      }
      return Deposited(u, a);
    }
  }

  /**
   * The receipt handler's button, pressed by the admin, deposits exactly the
   * user and amount it was built for.
   */
  method ConfirmReceiptButton(store: Store, adminId: int, userId: int, amount: int) returns (outcome: ConfirmOutcome)
    requires store.Valid()
    modifies store
    ensures store.Valid() && store.users == old(store.users)
    ensures AfterDeposit(old(store.stats), store.users, userId, amount).Ok? ==>
      outcome == Deposited(userId, amount) &&
      store.stats == AfterDeposit(old(store.stats), store.users, userId, amount).value
    ensures AfterDeposit(old(store.stats), store.users, userId, amount).Err? ==>
      outcome.DepositFailed? && store.stats == old(store.stats)
  {
    Callback.ConfirmDataRoundTrip(userId, amount);
    outcome := store.ConfirmDeposit(adminId, adminId, Callback.ConfirmData(userId, amount));
  }
}
