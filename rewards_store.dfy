/** The rewards tab: the client-side balance check before a redemption
    request, the `redeeming` marker held while the request runs, and the
    enabled state and label of each reward's button. */
module RewardsStoreView {
  import opened Common
  import opened Db
  import RedeemRoute

  const RedeemingLabel := "Redeeming..."
  const RedeemLabel := "Redeem"
  const ShortLabel := "Not enough points"

  /** The button of `reward` is disabled: unavailable, unaffordable with the
      shown balance, or already being redeemed. */
  predicate ButtonDisabled(reward: Reward, userPoints: int, redeeming: Option<string>)
  {
    !reward.available || userPoints < reward.points_required || redeeming == Some(reward.id)
  }

  /** The button's text. */
  function ButtonLabel(reward: Reward, userPoints: int, redeeming: Option<string>): string
  {
    if redeeming == Some(reward.id) then RedeemingLabel
    else if userPoints >= reward.points_required then RedeemLabel
    else ShortLabel
  }

  class RewardsStore {
    /** The id of the reward whose request is in flight, if any. */
    var redeeming: Option<string>

    constructor()
      ensures redeeming.None?
    {
      redeeming := None;
    }

    /** `handleRedeem(rewardId, pointsRequired)` for the user `userId` whose
        shown balance is `userPoints`. `notified` is the value passed to
        `onPointsUpdate`, if it is called; `inFlight` is `redeeming` while
        the request runs. */
    method HandleRedeem(db: Store, userId: string, userPoints: int, rewardId: string, pointsRequired: int,
                        faults: Faults, rowId: string, now: int)
      returns (notified: Option<int>, ghost inFlight: Option<string>)
      requires db.Valid()
      modifies this, db
      ensures db.Valid()
      ensures userPoints < pointsRequired ==>
        && notified.None? && redeeming == old(redeeming)
        && db.users == old(db.users) && db.redemptions == old(db.redemptions)
      ensures userPoints >= pointsRequired ==>
        var req := RedeemRoute.RedeemRequest(Some(userId), Some(rewardId));
        var verdict := RedeemRoute.VerdictOf(old(db.users), old(db.rewards), req, faults);
        && inFlight == Some(rewardId) && redeeming.None?
        && db.users == RedeemRoute.UsersAfter(old(db.users), old(db.rewards), req, faults)
        && db.redemptions == RedeemRoute.LedgerAfter(old(db.redemptions), old(db.users), old(db.rewards),
                                                     req, faults, rowId, now)
        && (verdict == RedeemRoute.Redeemed <==> notified.Some?)
        && (notified.Some? ==> userId in db.users && notified.value == db.users[userId].points)
      ensures db.rewards == old(db.rewards) && db.logs == old(db.logs)
    {
      notified, inFlight := None, None;
      if userPoints < pointsRequired {
        return;
      }

      redeeming := Some(rewardId);
      inFlight := redeeming;
      var resp, verdict := RedeemRoute.Redeem(db, RedeemRoute.RedeemRequest(Some(userId), Some(rewardId)),
                                               faults, rowId, now);
      if IsOk(resp.status) {
        notified := Some(resp.payload.value.newPoints);
      }
      redeeming := None;
    }
  }

  /** An enabled button means the server's availability and balance checks
      pass for that reward, provided the shown balance and the listed reward
      are the stored ones: the request then fails only on a store error. */
  lemma EnabledButtonPassesServerChecks(users: map<string, UserRow>, rewards: map<string, Reward>,
                                        userId: string, reward: Reward, redeeming: Option<string>, faults: Faults)
    requires userId != "" && reward.id != ""
    requires userId in users && reward.id in rewards && rewards[reward.id] == reward
    requires UserLookup !in faults && RewardLookup !in faults
    requires !ButtonDisabled(reward, users[userId].points, redeeming)
    ensures var v := RedeemRoute.VerdictOf(users, rewards, RedeemRoute.RedeemRequest(Some(userId), Some(reward.id)), faults);
      v == RedeemRoute.LedgerWriteFailed || v == RedeemRoute.BalanceWriteFailed || v == RedeemRoute.Redeemed
    ensures faults == map[] ==>
      RedeemRoute.VerdictOf(users, rewards, RedeemRoute.RedeemRequest(Some(userId), Some(reward.id)), faults)
      == RedeemRoute.Redeemed
  {
  }

  /** The label tracks the button's state: "Redeeming..." exactly while that
      reward is in flight; otherwise "Redeem" exactly when the balance
      suffices, and "Not enough points" marks a disabled button. */
  lemma LabelAgreesWithButton(reward: Reward, userPoints: int, redeeming: Option<string>)
    ensures ButtonLabel(reward, userPoints, redeeming) == RedeemingLabel <==> redeeming == Some(reward.id)
    ensures redeeming != Some(reward.id) ==>
      (ButtonLabel(reward, userPoints, redeeming) == RedeemLabel <==> userPoints >= reward.points_required)
    ensures ButtonLabel(reward, userPoints, redeeming) == ShortLabel ==> ButtonDisabled(reward, userPoints, redeeming)
    ensures ButtonLabel(reward, userPoints, redeeming) == RedeemingLabel ==> ButtonDisabled(reward, userPoints, redeeming)
    ensures !ButtonDisabled(reward, userPoints, redeeming) <==>
      ButtonLabel(reward, userPoints, redeeming) == RedeemLabel && reward.available
  {
  }

  /** An unavailable reward keeps its button disabled whatever the balance;
      "Redeem" may still show on it. */
  lemma UnavailableRewardStaysDisabled(reward: Reward, userPoints: int, redeeming: Option<string>)
    requires !reward.available
    ensures ButtonDisabled(reward, userPoints, redeeming)
    ensures redeeming != Some(reward.id) && userPoints >= reward.points_required ==>
      ButtonLabel(reward, userPoints, redeeming) == RedeemLabel
  {
  }
}
