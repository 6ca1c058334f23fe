/** The dashboard page: today's usage from the cached entries, the goal
    verdict and the figures shown with it, the daily-bonus claim, and the
    wiring of the rewards tab to the user-data cache. */
module Dashboard {
  import opened Common
  import opened Db
  import opened Sequences
  import PointsRoute
  import RedeemRoute
  import ScreenTimeRoute
  import UserDataHook
  import RewardsStoreView

  /** `calculateTodayUsage`: the durations summed from the left, starting at 0. */
  function TodayUsage(logs: seq<ScreenTimeEntry>): int
  {
    if logs == [] then 0 else TodayUsage(logs[..|logs| - 1]) + logs[|logs| - 1].duration_minutes
  }

  lemma {:induction false} TodayUsageConcat(a: seq<ScreenTimeEntry>, b: seq<ScreenTimeEntry>)
    ensures TodayUsage(a + b) == TodayUsage(a) + TodayUsage(b)
    decreases |b|
  {
    if b == [] {
      assert a + b == a;
    } else {
      assert (a + b)[..|a + b| - 1] == a + b[..|b| - 1];
      TodayUsageConcat(a, b[..|b| - 1]);
    }
  }

  /** One entry sums to its duration. */
  lemma TodayUsageSingle(x: ScreenTimeEntry)
    ensures TodayUsage([x]) == x.duration_minutes
  {
    assert [x][..0] == [];
  }

  /** Taking one entry out lowers the sum by exactly its duration. */
  lemma TodayUsageWithout(b: seq<ScreenTimeEntry>, k: nat)
    requires k < |b|
    ensures TodayUsage(b) == TodayUsage(b[..k] + b[k + 1..]) + b[k].duration_minutes
  {
    var p, x, q := b[..k], b[k], b[k + 1..];
    var px := p + [x];
    SplitAround(b, k);
    TodayUsageConcat(px, q);
    TodayUsageConcat(p, [x]);
    TodayUsageSingle(x);
    TodayUsageConcat(p, q);
  }

  /** A sequence is its prefix, the element at `k` and its suffix. */
  lemma SplitAround<T>(b: seq<T>, k: nat)
    requires k < |b|
    ensures b == (b[..k] + [b[k]]) + b[k + 1..]
  {
  }

  /** An element of the multiset has a position in the sequence. */
  lemma FindOccurrence<T>(b: seq<T>, x: T) returns (k: nat)
    requires x in multiset(b)
    ensures k < |b| && b[k] == x
  {
    assert x in b;
    k :| 0 <= k < |b| && b[k] == x;
  }

  /** Removing one occurrence of an element from both sides keeps the multisets equal. */
  lemma RemoveOccurrence(a: seq<ScreenTimeEntry>, b: seq<ScreenTimeEntry>, k: nat)
    requires a != [] && k < |b| && b[k] == a[0] && multiset(a) == multiset(b)
    ensures multiset(a[1..]) == multiset(b[..k] + b[k + 1..])
  {
    var x := a[0];
    var rest := b[..k] + b[k + 1..];
    assert b == b[..k] + [x] + b[k + 1..];
    assert a == [x] + a[1..];
    assert multiset(b) == multiset(b[..k]) + multiset{x} + multiset(b[k + 1..]);
    assert multiset(a) == multiset{x} + multiset(a[1..]);
    assert multiset(rest) == multiset(b[..k]) + multiset(b[k + 1..]);
    assert multiset(rest) == multiset(b) - multiset{x};
    assert multiset(a[1..]) == multiset(a) - multiset{x};
  }

  /** The sum does not depend on the order of the entries. */
  lemma {:induction false} TodayUsageIgnoresOrder(a: seq<ScreenTimeEntry>, b: seq<ScreenTimeEntry>)
    requires multiset(a) == multiset(b)
    ensures TodayUsage(a) == TodayUsage(b)
    decreases |a|
  {
    if a == [] {
      assert |b| == |multiset(b)| == 0;
    } else {
      assert a[0] in multiset(b);
      var k := FindOccurrence(b, a[0]);
      RemoveOccurrence(a, b, k);
      TodayUsageIgnoresOrder(a[1..], b[..k] + b[k + 1..]);
      TodayUsageWithout(a, 0);
      TodayUsageWithout(b, k);
      assert a[..0] + a[1..] == a[1..];
    }
  }

  /** With no negative durations logged, the usage is not negative, and it is
      positive exactly when some entry has a positive duration. */
  lemma {:induction false} TodayUsageSign(logs: seq<ScreenTimeEntry>)
    requires forall i :: 0 <= i < |logs| ==> logs[i].duration_minutes >= 0
    ensures TodayUsage(logs) >= 0
    ensures TodayUsage(logs) > 0 <==> exists i :: 0 <= i < |logs| && logs[i].duration_minutes > 0
  {
    if logs != [] {
      var init := logs[..|logs| - 1];
      TodayUsageSign(init);
      if TodayUsage(init) > 0 {
        var i :| 0 <= i < |init| && init[i].duration_minutes > 0;
        assert logs[i] == init[i];
      }
      if exists i :: 0 <= i < |logs| && logs[i].duration_minutes > 0 {
        var i :| 0 <= i < |logs| && logs[i].duration_minutes > 0;
        if i < |init| {
          assert init[i] == logs[i];
        }
      }
    }
  }

  /** The usage shown after a refresh is the total of the user's entries for
      today in the store, however the store orders them. */
  lemma CachedUsageIsTodaysTotal(logs: seq<ScreenTimeEntry>, userId: string, today: string)
    ensures TodayUsage(ScreenTimeRoute.LogQuery(logs, userId, Some(today)))
         == TodayUsage(Filter(logs, (e: ScreenTimeEntry) => ScreenTimeRoute.Matches(e, userId, Some(today))))
  {
    var kept := Filter(logs, (e: ScreenTimeEntry) => ScreenTimeRoute.Matches(e, userId, Some(today)));
    TodayUsageIgnoresOrder(ScreenTimeRoute.LogQuery(logs, userId, Some(today)), kept);
  }

  /** `isUnderGoal`. */
  predicate IsUnderGoal(usage: int, goal: int)
  {
    usage <= goal
  }

  /** The test `checkAndAwardPoints` applies before asking for the bonus. */
  predicate ClaimEligible(usage: int, goal: int)
  {
    usage <= goal && usage > 0
  }

  /** Whether the "Claim Daily Points" button is shown. */
  predicate ShowsClaimButton(usage: int, goal: int)
  {
    IsUnderGoal(usage, goal) && usage > 0
  }

  /** The button is shown exactly when a click would send the request, and
      a day with nothing logged earns nothing. */
  lemma ClaimButtonMatchesEligibility(usage: int, goal: int)
    ensures ShowsClaimButton(usage, goal) <==> ClaimEligible(usage, goal)
    ensures ClaimEligible(usage, goal) <==> 0 < usage <= goal
    ensures ClaimEligible(usage, goal) ==> IsUnderGoal(usage, goal)
    ensures !ClaimEligible(0, goal)
  {
  }

  /** The goal card's message: minutes left, or minutes over. */
  datatype GoalStatus = Remaining(minutes: int) | Over(minutes: int)

  function GoalStatusOf(usage: int, goal: int): (s: GoalStatus)
    ensures s.Remaining? <==> IsUnderGoal(usage, goal)
    ensures s.minutes >= 0
    ensures s.Remaining? ==> usage + s.minutes == goal
    ensures s.Over? ==> usage == goal + s.minutes && s.minutes > 0
  {
    if IsUnderGoal(usage, goal) then Remaining(goal - usage) else Over(usage - goal)
  }

  /** JavaScript's `%` with a positive divisor: the remainder takes the sign
      of the dividend. */
  function JsRemainder(a: int, b: int): (r: int)
    requires b > 0
    ensures a >= 0 ==> 0 <= r < b
    ensures a < 0 ==> -b < r <= 0
    ensures (a - r) % b == 0
  {
    if a >= 0 then
      RemainderLeavesMultiple(a, b);
      a % b
    else
      RemainderLeavesMultiple(-a, b);
      -((-a) % b)
  }

  /** Taking away the remainder leaves a multiple of `b`, of either sign. */
  lemma RemainderLeavesMultiple(m: nat, b: int)
    requires b > 0
    ensures (m - m % b) % b == 0
    ensures (-(m - m % b)) % b == 0
  {
    var q := m / b;
    assert m - m % b == b * q;
    assert -(m - m % b) == b * -q;
    MultipleHasNoRemainder(q, b);
    MultipleHasNoRemainder(-q, b);
  }

  /** A multiple of `b` leaves remainder 0. */
  lemma MultipleHasNoRemainder(q: int, b: int)
    requires b > 0
    ensures (b * q) % b == 0
  {
    var x := b * q;
    var d := x / b;
    var r := x % b;
    assert x == d * b + r;
    assert r == (q - d) * b;
    ProductBounds(q - d, b);
  }

  /** A non-zero multiple of `b` is at least `b` away from 0. */
  lemma {:induction false} ProductBounds(k: int, b: int)
    requires b > 0
    ensures k >= 1 ==> k * b >= b
    ensures k <= -1 ==> k * b <= -b
    decreases if k < 0 then -k else k
  {
    if k > 1 {
      ProductBounds(k - 1, b);
      assert k * b == (k - 1) * b + b;
    } else if k < -1 {
      ProductBounds(k + 1, b);
      assert k * b == (k + 1) * b - b;
    }
  }

  /** `Math.floor(m / 60)` and `m % 60`, as shown in "{h}h {m}m". */
  function HoursMinutes(m: int): (hm: (int, int))
    ensures m >= 0 ==> hm.0 >= 0 && 0 <= hm.1 < 60 && 60 * hm.0 + hm.1 == m
  {
    (m / 60, JsRemainder(m, 60))
  }

  /** A negative total splits inconsistently: -30 minutes shows as "-1h -30m". */
  lemma NegativeMinutesSplit()
    ensures HoursMinutes(-30) == (-1, -30)
    ensures 60 * HoursMinutes(-30).0 + HoursMinutes(-30).1 != -30
  {
  }

  /** Two hours and five minutes show as "2h 5m"; the default goal as "2h 0m". */
  lemma HoursMinutesExample()
    ensures HoursMinutes(125) == (2, 5)
    ensures HoursMinutes(UserDataHook.DefaultDailyGoal) == (2, 0)
  {
  }

  const DailyBonus := 50
  const BonusReason := "Daily goal achieved"

  /** The body `checkAndAwardPoints` posts. */
  function BonusRequest(userId: string): PointsRoute.AwardRequest
  {
    PointsRoute.AwardRequest(Some(userId), Some(DailyBonus), Some(BonusReason))
  }

  /** `checkAndAwardPoints`: with a cached profile and an eligible usage,
      posts the fixed bonus for the signed-in user and, on success, refreshes
      the cache. `requested` says whether the request was sent; `midUsers`
      is the table between the award and the refresh. */
  method CheckAndAwardPoints(hook: UserDataHook.UserData, db: Store, awardFaults: Faults, refreshFaults: Faults,
                             today: string)
    returns (requested: bool, ghost awarded: bool, ghost midUsers: map<string, UserRow>)
    requires hook.Valid() && db.Valid()
    modifies hook`profile, hook`screenTimeLogs, hook`loading, db
    ensures hook.Valid() && db.Valid()
    ensures requested <==>
      old(hook.profile).Some? && ClaimEligible(TodayUsage(old(hook.screenTimeLogs)), old(hook.profile).value.daily_goal)
    ensures !requested ==> midUsers == old(db.users)
    ensures requested ==>
      && hook.user.Some?
      && midUsers == PointsRoute.UsersAfter(old(db.users), BonusRequest(hook.user.value.id), awardFaults)
    ensures awarded <==>
      requested && PointsRoute.VerdictOf(old(db.users), BonusRequest(hook.user.value.id), awardFaults) == PointsRoute.Awarded
    ensures !awarded ==>
      && db.users == midUsers
      && hook.profile == old(hook.profile) && hook.screenTimeLogs == old(hook.screenTimeLogs)
      && hook.loading == old(hook.loading)
    ensures awarded ==>
      && db.users == UserDataHook.UsersAfterFetch(midUsers, hook.user.value, refreshFaults)
      && hook.profile == (if UserDataHook.FetchedProfile(midUsers, hook.user.value, refreshFaults).Some?
                          then UserDataHook.FetchedProfile(midUsers, hook.user.value, refreshFaults)
                          else old(hook.profile))
      && hook.screenTimeLogs == (if LogsScan !in refreshFaults
                                 then ScreenTimeRoute.LogQuery(old(db.logs), hook.user.value.id, Some(today))
                                 else old(hook.screenTimeLogs))
      && !hook.loading
    ensures awarded && refreshFaults == map[] ==>
      var id := hook.user.value.id;
      && id in old(db.users) && id in db.users
      && db.users[id].points == old(db.users)[id].points + DailyBonus
      && hook.profile == Some(db.users[id])
      && hook.screenTimeLogs == ScreenTimeRoute.LogQuery(db.logs, id, Some(today))
    ensures db.rewards == old(db.rewards) && db.logs == old(db.logs) && db.redemptions == old(db.redemptions)
  {
    requested, awarded, midUsers := false, false, db.users;
    if hook.profile.None? {
      return;
    }
    var usage := TodayUsage(hook.screenTimeLogs);
    var goal := hook.profile.value.daily_goal;
    if !(usage <= goal && usage > 0) {
      return;
    }

    requested := true;
    var resp, verdict := PointsRoute.AwardPoints(db, BonusRequest(hook.user.value.id), awardFaults);
    midUsers := db.users;
    if IsOk(resp.status) {
      awarded := true;
      hook.RefreshData(db, refreshFaults, today);
      if refreshFaults == map[] {
        UserDataHook.ExistingProfileIsLoaded(midUsers, hook.user.value, refreshFaults);
      }
    }
  }

  /** `handlePointsUpdate`: forwards to `updatePoints` only when a profile
      is cached. */
  method HandlePointsUpdate(hook: UserDataHook.UserData, db: Store, newPoints: int, faults: Faults)
    requires hook.Valid() && db.Valid()
    modifies hook`profile, db
    ensures hook.Valid() && db.Valid()
    ensures old(hook.profile).None? || PointsUpdate in faults ==>
      hook.profile == old(hook.profile) && db.users == old(db.users)
    ensures old(hook.profile).Some? && PointsUpdate !in faults ==>
      && hook.user.Some?
      && hook.profile == Some(old(hook.profile).value.(points := newPoints))
      && db.users == SetPoints(old(db.users), hook.user.value.id, newPoints)
    ensures old(hook.CoherentWith(db.users)) ==> hook.CoherentWith(db.users)
    ensures db.rewards == old(db.rewards) && db.logs == old(db.logs) && db.redemptions == old(db.redemptions)
  {
    if hook.profile.Some? {
      hook.UpdatePoints(db, newPoints, faults);
    }
  }

  /** A click on a reward in the rewards tab: `handleRedeem` with the cached
      balance, whose success callback is `handlePointsUpdate`. The client's
      own balance write repeats the value the server has just stored, so the
      table ends as the redeem route alone leaves it, and a cache that
      matched the store before still matches it afterwards. */
  method RedeemFromRewardsTab(view: RewardsStoreView.RewardsStore, hook: UserDataHook.UserData, db: Store,
                              reward: Reward, redeemFaults: Faults, updateFaults: Faults, rowId: string, now: int)
    requires hook.Valid() && db.Valid()
    requires hook.profile.Some?
    modifies view, hook`profile, db
    ensures hook.Valid() && db.Valid()
    ensures old(hook.profile).value.points < reward.points_required ==>
      && db.users == old(db.users) && db.redemptions == old(db.redemptions)
      && hook.profile == old(hook.profile) && view.redeeming == old(view.redeeming)
    ensures old(hook.profile).value.points >= reward.points_required ==>
      var req := RedeemRoute.RedeemRequest(Some(hook.user.value.id), Some(reward.id));
      && view.redeeming.None?
      && db.users == RedeemRoute.UsersAfter(old(db.users), old(db.rewards), req, redeemFaults)
      && db.redemptions == RedeemRoute.LedgerAfter(old(db.redemptions), old(db.users), old(db.rewards),
                                                   req, redeemFaults, rowId, now)
    ensures
      var id := hook.user.value.id;
      var verdict := RedeemRoute.VerdictOf(old(db.users), old(db.rewards),
                                           RedeemRoute.RedeemRequest(Some(id), Some(reward.id)), redeemFaults);
      if old(hook.profile).value.points >= reward.points_required && verdict == RedeemRoute.Redeemed
         && PointsUpdate !in updateFaults
      then id in db.users && hook.profile == Some(old(hook.profile).value.(points := db.users[id].points))
      else hook.profile == old(hook.profile)
    ensures old(hook.CoherentWith(db.users)) && PointsUpdate !in updateFaults ==> hook.CoherentWith(db.users)
    ensures db.rewards == old(db.rewards) && db.logs == old(db.logs)
  {
    var userId := hook.user.value.id;
    var notified, inFlight := view.HandleRedeem(db, userId, hook.profile.value.points, reward.id,
                                                reward.points_required, redeemFaults, rowId, now);
    if notified.Some? {
      SetPointsToCurrent(db.users, userId);
      HandlePointsUpdate(hook, db, notified.value, updateFaults);
    }
  }
}
