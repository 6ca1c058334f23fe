/** `POST /api/rewards/redeem`: validates the request, reads the user's
    balance and the reward, checks availability and then the balance,
    appends a "completed" redemption and finally writes the reduced balance.
    The two writes are separate store calls, so a failure of the second
    leaves the redemption row behind. */
module RedeemRoute {
  import opened Common
  import opened Db

  /** The JSON body `{ userId, rewardId }`; a missing field is `None`. */
  datatype RedeemRequest = RedeemRequest(userId: Option<string>, rewardId: Option<string>)

  /** The 201 body `{ data: redemption, newPoints, message }`. */
  datatype RedeemBody = RedeemBody(data: Redemption, newPoints: int, message: string)

  const MissingFieldsMessage := "Missing required fields"
  const UnavailableMessage := "Reward is not available"
  const InsufficientMessage := "Insufficient points"
  const FailureMessage := "Failed to redeem reward"
  const SuccessMessage := "Reward redeemed successfully!"
  const CompletedStatus := "completed"

  /** The branch a request ends in, in the order the handler reaches them. */
  datatype Verdict =
    | MissingFields
    | UserLookupFailed
    | RewardLookupFailed
    | Unavailable
    | Insufficient
    | LedgerWriteFailed
    | BalanceWriteFailed
    | Redeemed
  {
    /** The branches that return before either write. */
    predicate WritesNothing()
    {
      this != BalanceWriteFailed && this != Redeemed
    }

    function Status(): int
    {
      match this
      case MissingFields | Unavailable | Insufficient => 400
      case Redeemed => 201
      case _ => 500
    }

    function Message(): string
    {
      match this
      case MissingFields => MissingFieldsMessage
      case Unavailable => UnavailableMessage
      case Insufficient => InsufficientMessage
      case Redeemed => SuccessMessage
      case _ => FailureMessage
    }
  }

  function VerdictOf(users: map<string, UserRow>, rewards: map<string, Reward>,
                     req: RedeemRequest, faults: Faults): Verdict
  {
    if !Truthy(req.userId) || !Truthy(req.rewardId) then MissingFields
    else
      var user := FindUser(users, req.userId.value, faults);
      var reward := FindReward(rewards, req.rewardId.value, faults);
      if user.Failure? then UserLookupFailed
      else if reward.Failure? then RewardLookupFailed
      else if !reward.value.available then Unavailable
      else if user.value.points < reward.value.points_required then Insufficient
      else if RedemptionInsert in faults then LedgerWriteFailed
      else if PointsUpdate in faults then BalanceWriteFailed
      else Redeemed
  }

  /** The balance the handler computes on success. */
  function NewBalance(users: map<string, UserRow>, rewards: map<string, Reward>, req: RedeemRequest): int
    requires Truthy(req.userId) && Truthy(req.rewardId)
    requires req.userId.value in users && req.rewardId.value in rewards
  {
    users[req.userId.value].points - rewards[req.rewardId.value].points_required
  }

  /** The `users` table after the request. */
  function UsersAfter(users: map<string, UserRow>, rewards: map<string, Reward>,
                      req: RedeemRequest, faults: Faults): (r: map<string, UserRow>)
    ensures r.Keys == users.Keys
    ensures forall id :: id in users && (req.userId.None? || id != req.userId.value) ==> r[id] == users[id]
  {
    if VerdictOf(users, rewards, req, faults) == Redeemed
    then SetPoints(users, req.userId.value, NewBalance(users, rewards, req))
    else users
  }

  /** The `reward_redemptions` table after the request: one row more once the
      ledger insert has gone through, whatever happens to the balance write. */
  function LedgerAfter(ledger: seq<Redemption>, users: map<string, UserRow>, rewards: map<string, Reward>,
                       req: RedeemRequest, faults: Faults, rowId: string, now: int): (r: seq<Redemption>)
    ensures |ledger| <= |r| <= |ledger| + 1 && r[..|ledger|] == ledger
    ensures |r| == |ledger| + 1 ==> r[|ledger|].status == CompletedStatus
  {
    var v := VerdictOf(users, rewards, req, faults);
    if v == Redeemed || v == BalanceWriteFailed
    then ledger + [Redemption(rowId, req.userId.value, req.rewardId.value, now, CompletedStatus)]
    else ledger
  }

  method Redeem(db: Store, req: RedeemRequest, faults: Faults, rowId: string, now: int)
    returns (resp: Response<RedeemBody>, ghost verdict: Verdict)
    requires db.Valid()
    modifies db
    ensures db.Valid()
    ensures verdict == VerdictOf(old(db.users), old(db.rewards), req, faults)
    ensures db.users == UsersAfter(old(db.users), old(db.rewards), req, faults)
    ensures db.redemptions == LedgerAfter(old(db.redemptions), old(db.users), old(db.rewards), req, faults, rowId, now)
    ensures db.rewards == old(db.rewards) && db.logs == old(db.logs)
    ensures resp.status == verdict.Status()
    ensures verdict != Redeemed ==> resp.payload == Error(verdict.Message())
    ensures verdict == Redeemed ==>
      resp.payload == Data(RedeemBody(db.redemptions[|db.redemptions| - 1], db.users[req.userId.value].points, SuccessMessage))
  {
    verdict := VerdictOf(db.users, db.rewards, req, faults);
    if !Truthy(req.userId) || !Truthy(req.rewardId) {
      resp := Response(400, Error(MissingFieldsMessage));
      return;
    }
    var userId, rewardId := req.userId.value, req.rewardId.value;

    var user := FindUser(db.users, userId, faults);
    if user.Failure? {
      resp := Response(500, Error(FailureMessage));
      return;
    }
    var reward := FindReward(db.rewards, rewardId, faults);
    if reward.Failure? {
      resp := Response(500, Error(FailureMessage));
      return;
    }

    if !reward.value.available {
      resp := Response(400, Error(UnavailableMessage));
      return;
    }
    if user.value.points < reward.value.points_required {
      resp := Response(400, Error(InsufficientMessage));
      return;
    }

    var redemption := Redemption(rowId, userId, rewardId, now, CompletedStatus);
    var err := db.InsertRedemption(redemption, faults);
    if err.Some? {
      resp := Response(500, Error(FailureMessage));
      return;
    }

    var newPoints := user.value.points - reward.value.points_required;
    err := db.UpdatePoints(userId, newPoints, faults);
    if err.Some? {
      resp := Response(500, Error(FailureMessage));
      return;
    }

    resp := Response(201, Data(RedeemBody(redemption, newPoints, SuccessMessage)));
  }

  /** A request that ends before the ledger insert (missing field, unknown
      user or reward, unavailable reward, short balance, failed insert)
      changes neither table. */
  lemma RejectedRedeemChangesNothing(users: map<string, UserRow>, rewards: map<string, Reward>,
                                     ledger: seq<Redemption>, req: RedeemRequest, faults: Faults, rowId: string, now: int)
    requires VerdictOf(users, rewards, req, faults).WritesNothing()
    ensures UsersAfter(users, rewards, req, faults) == users
    ensures LedgerAfter(ledger, users, rewards, req, faults, rowId, now) == ledger
  {
  }

  /** The checks run in the handler's order: missing fields first, then the
      user lookup, the reward lookup, availability, and only then the balance. */
  lemma RedeemChecksInOrder(users: map<string, UserRow>, rewards: map<string, Reward>, req: RedeemRequest, faults: Faults)
    ensures !Truthy(req.userId) || !Truthy(req.rewardId) ==> VerdictOf(users, rewards, req, faults) == MissingFields
    ensures Truthy(req.userId) && Truthy(req.rewardId) && UserLookup !in faults && req.userId.value !in users
      ==> VerdictOf(users, rewards, req, faults) == UserLookupFailed
    ensures Truthy(req.userId) && Truthy(req.rewardId) && UserLookup !in faults && RewardLookup !in faults
      && req.userId.value in users && req.rewardId.value in rewards && !rewards[req.rewardId.value].available
      ==> VerdictOf(users, rewards, req, faults) == Unavailable
    ensures Truthy(req.userId) && Truthy(req.rewardId) && UserLookup !in faults && RewardLookup !in faults
      && req.userId.value in users && req.rewardId.value in rewards && rewards[req.rewardId.value].available
      && users[req.userId.value].points < rewards[req.rewardId.value].points_required
      ==> VerdictOf(users, rewards, req, faults) == Insufficient
  {
  }

  /** A redemption goes through only for a known user and an available reward
      the user can afford; it then takes exactly the reward's cost from that
      user's balance, leaves the balance non-negative, touches no other user
      and appends one "completed" row for that user and reward. */
  lemma RedeemedDebitsExactlyTheCost(users: map<string, UserRow>, rewards: map<string, Reward>,
                                     ledger: seq<Redemption>, req: RedeemRequest, faults: Faults, rowId: string, now: int)
    requires VerdictOf(users, rewards, req, faults) == Redeemed
    ensures Truthy(req.userId) && Truthy(req.rewardId)
    ensures req.userId.value in users && req.rewardId.value in rewards
    ensures rewards[req.rewardId.value].available
    ensures users[req.userId.value].points >= rewards[req.rewardId.value].points_required
    ensures var after := UsersAfter(users, rewards, req, faults);
      && after.Keys == users.Keys
      && after[req.userId.value].points == users[req.userId.value].points - rewards[req.rewardId.value].points_required
      && after[req.userId.value].points >= 0
      && (forall id :: id in users && id != req.userId.value ==> after[id] == users[id])
    ensures LedgerAfter(ledger, users, rewards, req, faults, rowId, now)
      == ledger + [Redemption(rowId, req.userId.value, req.rewardId.value, now, CompletedStatus)]
  {
  }

  /** The steps are not atomic: when the balance write fails, the ledger row
      stays while the balance is unchanged. */
  lemma BalanceWriteFailureKeepsLedgerRow(users: map<string, UserRow>, rewards: map<string, Reward>,
                                          ledger: seq<Redemption>, req: RedeemRequest, faults: Faults, rowId: string, now: int)
    requires VerdictOf(users, rewards, req, faults) == BalanceWriteFailed
    ensures UsersAfter(users, rewards, req, faults) == users
    ensures LedgerAfter(ledger, users, rewards, req, faults, rowId, now)
      == ledger + [Redemption(rowId, req.userId.value, req.rewardId.value, now, CompletedStatus)]
    ensures VerdictOf(users, rewards, req, faults).Status() == 500
  {
  }

  ghost predicate NonNegativeBalances(users: map<string, UserRow>)
  {
    forall id :: id in users ==> users[id].points >= 0
  }

  /** Redemptions alone never drive a balance below zero. */
  lemma RedeemKeepsBalancesNonNegative(users: map<string, UserRow>, rewards: map<string, Reward>,
                                       req: RedeemRequest, faults: Faults)
    requires NonNegativeBalances(users)
    ensures NonNegativeBalances(UsersAfter(users, rewards, req, faults))
  {
  }
}
