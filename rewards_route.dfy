/** `GET /api/rewards`: the catalog restricted to available rewards, cheapest
    first. */
module RewardsRoute {
  import opened Common
  import opened Db
  import opened Sequences
  import RedeemRoute

  const FailureMessage := "Failed to fetch rewards"

  /** `.eq("available", true)`. */
  predicate IsAvailable(r: Reward)
  {
    r.available
  }

  /** The ordering key of `.order("points_required", { ascending: true })`. */
  function Cost(r: Reward): int
  {
    r.points_required
  }

  /** The rewards the route returns, read from `table` in the store's scan
      order: exactly the available ones, each as often as it is stored, in
      non-decreasing order of cost. */
  function Catalog(table: seq<Reward>): (r: seq<Reward>)
    ensures forall x :: x in r <==> x in table && x.available
    ensures forall x :: multiset(r)[x] == (if x.available then multiset(table)[x] else 0)
    ensures forall i, j :: 0 <= i < j < |r| ==> r[i].points_required <= r[j].points_required
  {
    var available := Filter(table, IsAvailable);
    SortBy(available, Cost)
  }

  /** The handler: a store error gives 500, otherwise 200 with the catalog. */
  function RewardsGet(table: seq<Reward>, faults: Faults): (resp: Response<seq<Reward>>)
  {
    if RewardsScan in faults then Response(500, Error(FailureMessage))
    else Response(200, Data(Catalog(table)))
  }

  lemma RewardsGetOutcomes(table: seq<Reward>, faults: Faults)
    ensures RewardsGet(table, faults).status == (if RewardsScan in faults then 500 else 200)
    ensures RewardsScan in faults <==> RewardsGet(table, faults).payload == Error(FailureMessage)
    ensures RewardsScan !in faults ==> RewardsGet(table, faults).payload.Data?
  {
  }

  /** A reward picked from the catalog is never turned down by the redeem
      route as unavailable, whoever asks and whatever else fails. */
  lemma CatalogRewardsPassAvailabilityCheck(table: seq<Reward>, rewards: map<string, Reward>,
                                            users: map<string, UserRow>, reward: Reward,
                                            userId: Option<string>, faults: Faults)
    requires ListsRewards(table, rewards)
    requires reward in Catalog(table)
    ensures reward.id in rewards && rewards[reward.id] == reward
    ensures RedeemRoute.VerdictOf(users, rewards, RedeemRoute.RedeemRequest(userId, Some(reward.id)), faults)
            != RedeemRoute.Unavailable
  {
    var k :| 0 <= k < |table| && table[k] == reward;
  }
}
