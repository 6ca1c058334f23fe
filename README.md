# ScreenWise points and goals — a Dafny model

ScreenWise is a web app in which students log their daily social-media
minutes. While the day's logged usage is positive and within their goal, a
"Claim Daily Points" button awards 50 points per click (nothing limits it to
one claim a day), and points are spent on rewards. This project models the part of it that decides
things:

- the server routes that move points and record redemptions
  (`/api/rewards/redeem`, `/api/users/points`);
- the routes that read the store (`/api/leaderboard`, `/api/rewards`,
  `/api/screen-time`);
- the client logic of the dashboard page, the rewards tab and the
  `useUserData` hook.

The hosted database is modelled as the class `Db.Store`:

- `users` and `rewards` are maps keyed by id;
- `screen_time_logs` and `reward_redemptions` are sequences that only grow.

Each request is one sequential step on that store. HTTP responses are a
`Response` value carrying a status and either `Data(...)` or `Error(message)`.

Things the server or the environment decides are parameters, not modelled
behaviour:

- `faults` names which store call fails during a step, and the error it
  returns.
- Row ids and timestamps that the database generates are passed in.
- "Today's date" is passed in.
- The order in which a table is scanned is a sequence related to the map
  (`ListsUsers`, `ListsRewards`).

The client's mutable state is modelled as classes:

- `UserDataHook.UserData` holds the cached profile, today's entries and
  `loading`;
- `RewardsStoreView.RewardsStore` holds the `redeeming` marker.

The pure derivations are functions with lemmas: the leaderboard, the catalog,
the log query, usage sums, goal arithmetic and initials.

Modules, one per file:

| file | module | models |
|---|---|---|
| common.dfy | `Common` | options, results, JavaScript truthiness, responses |
| sequences.dfy | `Sequences` | the store's `.eq` filter and `.order` sort |
| database.dfy | `Db` | table rows, single-row lookups and writes, `Store` |
| initials.dfy | `NameInitials` | `split(" ").map(n => n[0]).join("").toUpperCase()` |
| redeem_route.dfy | `RedeemRoute` | `POST /api/rewards/redeem` |
| points_route.dfy | `PointsRoute` | `POST /api/users/points` |
| leaderboard_route.dfy | `LeaderboardRoute` | `GET /api/leaderboard` |
| rewards_route.dfy | `RewardsRoute` | `GET /api/rewards` |
| screen_time_route.dfy | `ScreenTimeRoute` | `POST` and `GET /api/screen-time` |
| user_data.dfy | `UserDataHook` | `useUserData` |
| rewards_store.dfy | `RewardsStoreView` | the `RewardsStore` component's logic |
| dashboard.dfy | `Dashboard` | the dashboard page's logic and wiring |

## Model

| member | source | states |
|---|---|---|
| Sequences.Filter | app/api/screen-time/route.ts:49 | the kept rows are rows of the input that pass the test, every input row that passes is kept, each row that passes occurs as often as in the input and no other row occurs, and the result is no longer than the input |
| Sequences.FilterSkipsLast | app/api/screen-time/route.ts:49 | appending a row that fails the filter leaves the filtered sequence unchanged |
| Sequences.SortBy | app/api/rewards/route.ts:10 | the result is non-decreasing in the key and is a permutation of the input: same multiset, same length, same members |
| Db.SetPoints | app/api/users/points/route.ts:21-24 | a points write keeps the set of ids, replaces only the `points` field of the addressed row, and leaves every other row unchanged |
| Db.SetPointsToCurrent | hooks/use-user-data.ts:95-98 | writing the balance a row already holds leaves the table equal to what it was |
| Db.SetPointsTwice | app/api/users/points/route.ts:21-24 | a second points write to the same row overrides the first |
| Db.SetPointsKeepsKeyed | app/api/rewards/redeem/route.ts:56 | a points write keeps every row filed under its own id |
| Db.Store.InsertUser | hooks/use-user-data.ts:45-58 | an insert fails with the injected error or with a duplicate-key error when the id is present, and otherwise adds exactly that row; the other tables are unchanged |
| Db.Store.InsertRedemption | app/api/rewards/redeem/route.ts:40-52 | the redemption ledger grows by exactly the given row, or is unchanged on a store error |
| Db.Store.InsertLog | app/api/screen-time/route.ts:14-27 | the log grows by exactly the given entry, or is unchanged on a store error |
| Db.Store.UpdatePoints | app/api/rewards/redeem/route.ts:56-60 | on success the users table is the points write of that id; on a store error it is unchanged; other tables are never touched |
| NameInitials.Split | app/api/leaderboard/route.ts:22 | `split(" ")` yields at least one piece and no piece contains a space |
| NameInitials.SplitJoinRoundTrip | app/api/leaderboard/route.ts:22 | joining the pieces of a split with single spaces gives the original name back |
| NameInitials.FirstLetters | app/api/leaderboard/route.ts:23-24 | taking each piece's first character yields at most one character per piece |
| NameInitials.ToUpper | app/api/leaderboard/route.ts:25 | upper-casing keeps the length and maps each character through the ASCII upper-case map |
| NameInitials.Initials | app/dashboard/page.tsx:148-152 | the header initials have at most one character per space-separated piece |
| NameInitials.Avatar | app/api/leaderboard/route.ts:21-26 | the avatar is the initials cut to their first two characters: a prefix of the initials of length min(2, number of initials) |
| NameInitials.FirstLettersAreWordStarts | app/api/leaderboard/route.ts:22-24 | the first letters of the split pieces are exactly the characters of the name that begin a word (non-space at the start or after a space) |
| NameInitials.InitialsAreWordStarts | app/dashboard/page.tsx:148-152 | the initials are the upper-cased word-start characters of the name |
| NameInitials.WordStartsOverWord | app/api/leaderboard/route.ts:22-24 | a space-free word contributes exactly its first letter, and only when it begins a word |
| NameInitials.WordStartsOfWords | app/api/leaderboard/route.ts:22-24 | for non-empty space-free words joined by single spaces, the word starts are the words' first letters in order |
| NameInitials.InitialsOfWords | app/api/leaderboard/route.ts:21-25 | such a name has one initial per word: the upper-cased first letter of that word |
| NameInitials.AvatarOfTwoWords | app/api/dev/seed/route.ts:56 | "Alice Johnson" gets the avatar "AJ" |
| NameInitials.AvatarOfOneWord | app/api/leaderboard/route.ts:21-26 | a one-word name "Bob" gets the one-letter avatar "B" |
| NameInitials.AvatarOfEmptyName | app/api/leaderboard/route.ts:21-26 | the empty name has empty initials and an empty avatar |
| NameInitials.HeaderInitialsExample | app/dashboard/page.tsx:148-152 | the header does not truncate: "mary ann lee" shows "MAL" in the header but "MA" on the leaderboard |
| RedeemRoute.VerdictOf | app/api/rewards/redeem/route.ts:8-60 | no contract of its own; `RedeemChecksInOrder`, `RedeemedDebitsExactlyTheCost` and `RejectedRedeemChangesNothing` state which outcome each request gets |
| RedeemRoute.UsersAfter | app/api/rewards/redeem/route.ts:55-56 | the request keeps the set of users and changes no user other than the requester |
| RedeemRoute.LedgerAfter | app/api/rewards/redeem/route.ts:40-48 | the ledger only grows: the old rows stay in place and at most one row is appended, with status "completed" |
| RedeemRoute.Redeem | app/api/rewards/redeem/route.ts:4-74 | the redeem handler's outcome, users table and ledger are those of the verdict functions; the status is 400/500/201 by branch; errors carry the branch's message; success returns the appended row and the stored new balance |
| RedeemRoute.RejectedRedeemChangesNothing | app/api/rewards/redeem/route.ts:8-52 | a request that stops at the field check, a failed lookup, an unavailable reward, a short balance or a failed ledger insert changes neither the balances nor the ledger |
| RedeemRoute.RedeemChecksInOrder | app/api/rewards/redeem/route.ts:8-37 | missing fields win over everything; an unknown user fails before the reward is looked at; availability is checked before the balance; a short balance on an available reward gives "Insufficient points" |
| RedeemRoute.RedeemedDebitsExactlyTheCost | app/api/rewards/redeem/route.ts:31-56 | a success implies a known user, an available reward and enough points; the user's balance drops by exactly the cost and stays non-negative; no other user changes; one "completed" row for that user and reward is appended |
| RedeemRoute.BalanceWriteFailureKeepsLedgerRow | app/api/rewards/redeem/route.ts:39-60 | when the balance write fails, the "completed" row for that user and reward stays appended to the ledger, the balance is unchanged and the status is 500 |
| RedeemRoute.RedeemKeepsBalancesNonNegative | app/api/rewards/redeem/route.ts:35-56 | redemptions preserve the invariant that every balance is non-negative |
| PointsRoute.AwardPoints | app/api/users/points/route.ts:4-45 | the award handler's users table is that of the verdict functions; the status is 400/500/200 by branch; success reports the updated row, `pointsAdded` = delta, the reason defaulting to "Points awarded", and `newTotal` = old balance + delta |
| PointsRoute.VerdictOf | app/api/users/points/route.ts:8-30 | no contract of its own; `ZeroDeltaIsAccepted`, `FailedAwardChangesNothing` and `AwardAddsExactlyTheDelta` state which outcome each request gets |
| PointsRoute.UsersAfter | app/api/users/points/route.ts:20-24 | the request keeps the set of users and changes no user other than the addressed one |
| PointsRoute.AwardAddsExactlyTheDelta | app/api/users/points/route.ts:20-26 | a successful award adds exactly the delta to the addressed balance, unclamped, and changes no other field and no other user |
| PointsRoute.FailedAwardChangesNothing | app/api/users/points/route.ts:8-30 | every failing award leaves the users table unchanged |
| PointsRoute.ZeroDeltaIsAccepted | app/api/users/points/route.ts:8-10 | a delta of 0 passes validation (only an absent delta is rejected) and leaves the table unchanged |
| PointsRoute.AwardTwiceAddsTwice | app/api/users/points/route.ts:13-24 | two awards of `d` add `2·d`, so the award is not idempotent for `d ≠ 0` |
| PointsRoute.AwardCanOverdraw | app/api/users/points/route.ts:20 | a negative delta can take a balance below zero: 10 − 20 gives −10 |
| PointsRoute.AwardExample | app/api/users/points/route.ts:20-24 | a balance of 100 awarded 50 becomes 150 |
| Db.ListedUsersCount | app/api/leaderboard/route.ts:7-9 | a scan of a keyed users table, which lists each stored row once with no id repeated, has exactly as many rows as there are users |
| LeaderboardRoute.TopUsers | app/api/leaderboard/route.ts:7-11 | the selection has min(10, table size) users, in non-increasing points order, each taken from the table |
| LeaderboardRoute.Leaderboard | app/api/leaderboard/route.ts:18-27 | at most 10 rows; the row at index `i` has rank `i + 1`; points are non-increasing; each avatar is the two-letter initials of its name; each row copies the columns of some stored user, and the rows copy, position by position, users drawn from the table without using any table row twice |
| LeaderboardRoute.LeaderboardRowsCopyTop | app/api/leaderboard/route.ts:18-19 | the rows built from the selected users copy the columns of users in the table |
| LeaderboardRoute.LeaderboardIsTopTen | app/api/leaderboard/route.ts:10-11 | a user missing from the leaderboard has no more points than any listed row |
| LeaderboardRoute.LeaderboardRowsAreStored | app/api/leaderboard/route.ts:9 | every row's id, name, points and streak are those of that id's stored record |
| LeaderboardRoute.LeaderboardListsEachUserOnce | app/api/leaderboard/route.ts:7-27 | read from a keyed users table, no user appears twice on the leaderboard and it has min(10, number of stored users) rows |
| LeaderboardRoute.LeaderboardGet | app/api/leaderboard/route.ts:5-34 | no contract of its own; `LeaderboardGetStatus` states its outcomes |
| LeaderboardRoute.LeaderboardGetStatus | app/api/leaderboard/route.ts:13-33 | a store error gives 500 with no data; otherwise 200 with data |
| RewardsRoute.Catalog | app/api/rewards/route.ts:6-10 | the catalog holds exactly the available rewards, each as often as stored, in non-decreasing order of `points_required` |
| RewardsRoute.RewardsGet | app/api/rewards/route.ts:4-21 | no contract of its own; `RewardsGetOutcomes` states its outcomes |
| RewardsRoute.RewardsGetOutcomes | app/api/rewards/route.ts:12-19 | a store error gives 500 "Failed to fetch rewards"; otherwise 200 with the catalog |
| RewardsRoute.CatalogRewardsPassAvailabilityCheck | app/api/rewards/route.ts:9 | a reward taken from the catalog is the stored reward, and the redeem route never rejects it as unavailable |
| ScreenTimeRoute.Complete | app/api/screen-time/route.ts:9 | no contract of its own; `FalsyFieldsAreRejected` states that 0, "" and a missing field fail it, and `LogScreenTime` that it decides between 400 and the insert |
| ScreenTimeRoute.LogScreenTime | app/api/screen-time/route.ts:4-34 | a falsy field gives 400 with the log unchanged; a store error gives 500 with the log unchanged; otherwise exactly one entry carrying the four values is appended and returned with 201 |
| ScreenTimeRoute.LogQuery | app/api/screen-time/route.ts:46-54 | the listing holds exactly the stored entries of that user (and of that date, when given), each as often as it is stored and no other entry, newest `created_at` first |
| ScreenTimeRoute.ScreenTimeGet | app/api/screen-time/route.ts:36-67 | no contract of its own; `ScreenTimeGetOutcomes` states its outcomes |
| ScreenTimeRoute.ScreenTimeGetOutcomes | app/api/screen-time/route.ts:36-67 | no user gives 400 "User ID is required"; a store error gives 500; otherwise 200 with the user's entries, filtered by date only when a truthy date is given |
| ScreenTimeRoute.LoggedEntryIsListed | app/api/screen-time/route.ts:14-23 | an entry logged by POST is listed by GET for its user, both for its date and with no date |
| ScreenTimeRoute.LoggingIsInvisibleToOthers | app/api/screen-time/route.ts:49 | logging for one user leaves every other user's listing unchanged |
| ScreenTimeRoute.FalsyFieldsAreRejected | app/api/screen-time/route.ts:9-11 | a duration of 0, an empty app name and a missing duration all fail validation |
| UserDataHook.UserData.constructor | hooks/use-user-data.ts:24-26 | the hook starts with no profile, no entries and `loading` set |
| UserDataHook.UserData.FetchUserProfile | hooks/use-user-data.ts:28-70 | with no account nothing changes; otherwise the table and the cached profile are those of the fetch functions, and a fetch that stores nothing leaves the cached profile as it was |
| UserDataHook.UserData.FetchScreenTimeLogs | hooks/use-user-data.ts:72-89 | the cached entries become the account's entries for today, newest first, unless there is no account or the read fails, in which case they are unchanged |
| UserDataHook.UserData.UpdatePoints | hooks/use-user-data.ts:91-106 | with an account, a cached profile and no store error, the stored balance is written and the cached profile gets `points = n` with every other field kept; otherwise nothing changes; a cache that matched the store still matches it |
| UserDataHook.UserData.RefreshData | hooks/use-user-data.ts:108-112 | a refresh performs both reads with their individual effects and ends with `loading` false |
| UserDataHook.UserData.Mount | hooks/use-user-data.ts:114-120 | with no account only `loading` is cleared; with an account the table, the cached profile and the cached entries are those of a refresh (whatever fails), and with no store error the cached profile is the stored row and the cached entries are today's |
| UserDataHook.IsNotFound | hooks/use-user-data.ts:40 | no contract of its own; `NoRowsAnywhereIsNotFound` and `NoRowsMessageIsNotFound` state which errors it accepts |
| UserDataHook.DefaultProfile | hooks/use-user-data.ts:42-54 | no contract of its own; `FirstSignInCreatesDefaultProfile` states its fields and fallbacks |
| UserDataHook.FetchedProfile | hooks/use-user-data.ts:32-66 | no contract of its own; `FetchWithoutFaultsLoadsStoredRow`, `FirstSignInCreatesDefaultProfile`, `ExistingProfileIsLoaded` and `OtherErrorsStoreNothing` state the profile it stores |
| UserDataHook.UsersAfterFetch | hooks/use-user-data.ts:45-58 | the profile read never overwrites or removes a stored row, and adds at most the account's own row |
| UserDataHook.FetchWithoutFaultsLoadsStoredRow | hooks/use-user-data.ts:32-65 | a profile read without store errors always ends with a cached profile equal to the stored row for the account |
| UserDataHook.FirstSignInCreatesDefaultProfile | hooks/use-user-data.ts:40-54 | with no row for the account, the inserted and cached profile has 0 points, goal 120, streak 0, and the account's name and email, falling back to "Student User" and "unknown@example.com" |
| UserDataHook.ExistingProfileIsLoaded | hooks/use-user-data.ts:64-66 | an existing row is cached as it is and never overwritten |
| UserDataHook.OtherErrorsStoreNothing | hooks/use-user-data.ts:58-69 | a lookup error that is not "no rows", or a failed insert, stores no profile and leaves the table unchanged |
| UserDataHook.NoRowsMessageIsNotFound | hooks/use-user-data.ts:40 | two examples: an error with an empty code and the message "No rows found" counts as not-found; "42501 permission denied" does not |
| UserDataHook.NoRowsAnywhereIsNotFound | hooks/use-user-data.ts:40 | whatever its code, an error whose message contains "No rows" at any position counts as not-found |
| UserDataHook.ContainsInfix | hooks/use-user-data.ts:40 | `includes` finds a text wherever it occurs inside a message |
| UserDataHook.ContainsHasFirstCharacter | hooks/use-user-data.ts:40 | if the message contains a non-empty text, it contains that text's first character |
| UserDataHook.FetchIsIdempotent | hooks/use-user-data.ts:28-70 | reading the profile twice without errors gives the same table and profile as reading it once |
| RewardsStoreView.ButtonDisabled | components/rewards-store.tsx:197 | no contract of its own; `LabelAgreesWithButton`, `UnavailableRewardStaysDisabled` and `EnabledButtonPassesServerChecks` state when it holds |
| RewardsStoreView.ButtonLabel | components/rewards-store.tsx:201-205 | no contract of its own; `LabelAgreesWithButton` states which text shows when |
| RewardsStoreView.RewardsStore.constructor | components/rewards-store.tsx:28 | the tab starts with no reward in flight |
| RewardsStoreView.RewardsStore.HandleRedeem | components/rewards-store.tsx:109-149 | a shown balance below the cost returns with nothing requested and `redeeming` unchanged; otherwise `redeeming` holds the reward id while the request runs and is cleared afterwards; the store changes as the redeem route says; `onPointsUpdate` receives exactly the stored new balance on success and is not called on failure |
| RewardsStoreView.EnabledButtonPassesServerChecks | components/rewards-store.tsx:197 | an enabled button, with the shown balance and reward matching the store, means the redeem route's availability and balance checks pass; with no store error the redemption succeeds |
| RewardsStoreView.LabelAgreesWithButton | components/rewards-store.tsx:197-205 | "Redeeming..." shows exactly while that reward is in flight; otherwise "Redeem" shows exactly when the balance suffices; "Not enough points" and "Redeeming..." only on a disabled button; the button is enabled exactly when it reads "Redeem" on an available reward |
| RewardsStoreView.UnavailableRewardStaysDisabled | components/rewards-store.tsx:197-205 | an unavailable reward's button is disabled whatever the balance, though it may still read "Redeem" |
| Dashboard.TodayUsage | app/dashboard/page.tsx:48-50 | no contract of its own; `TodayUsageConcat`, `TodayUsageIgnoresOrder`, `TodayUsageSign` and `CachedUsageIsTodaysTotal` state its properties |
| Dashboard.TodayUsageConcat | app/dashboard/page.tsx:48-50 | the usage of two lists of entries is the sum of their usages |
| Dashboard.TodayUsageIgnoresOrder | app/dashboard/page.tsx:48-50 | any reordering of the entries gives the same usage |
| Dashboard.TodayUsageSign | app/dashboard/page.tsx:48-50 | with no negative durations the usage is non-negative, and positive exactly when some entry has a positive duration |
| Dashboard.CachedUsageIsTodaysTotal | app/dashboard/page.tsx:48-50 | the usage of the cached entries is the total over the user's stored entries for today, whatever the store's order |
| Dashboard.IsUnderGoal | app/dashboard/page.tsx:124 | no contract of its own; `GoalStatusOf` and `ClaimButtonMatchesEligibility` state how it decides the card and the button |
| Dashboard.ClaimEligible | app/dashboard/page.tsx:58 | no contract of its own; `ClaimButtonMatchesEligibility` states it is 0 < usage ≤ goal, and `CheckAndAwardPoints` that it decides the request |
| Dashboard.ShowsClaimButton | app/dashboard/page.tsx:287 | no contract of its own; `ClaimButtonMatchesEligibility` states it agrees with `ClaimEligible` |
| Dashboard.ClaimButtonMatchesEligibility | app/dashboard/page.tsx:58 | the claim button is shown exactly when a click would send the request, which is exactly when 0 < usage ≤ goal; a day with nothing logged earns nothing |
| Dashboard.GoalStatusOf | app/dashboard/page.tsx:281-283 | using `isUnderGoal` (app/dashboard/page.tsx:124), the card reads "remaining" exactly when under goal; its minutes are non-negative, with usage + remaining = goal, or usage = goal + over and over > 0 |
| Dashboard.JsRemainder | app/dashboard/page.tsx:199 | the remainder lies in [0, 60) for a non-negative total and in (−60, 0] for a negative one, and the total minus the remainder is a multiple of 60, which together fix its value as JavaScript's `%` |
| Dashboard.HoursMinutes | app/dashboard/page.tsx:199 | for a non-negative total `m`, hours ≥ 0, 0 ≤ minutes < 60 and 60·hours + minutes = m |
| Dashboard.NegativeMinutesSplit | app/dashboard/page.tsx:199 | a negative total splits inconsistently: −30 shows as −1h −30m, which does not add back to −30 |
| Dashboard.HoursMinutesExample | app/dashboard/page.tsx:203 | 125 minutes show as 2h 5m and the default goal of 120 as 2h 0m |
| Dashboard.CheckAndAwardPoints | app/dashboard/page.tsx:52-91 | the request is sent exactly when a profile is cached and 0 < usage ≤ goal; it is the 50-point award for the signed-in user; without a success the cache is untouched; on success the table, the cached profile and the cached entries are those of a refresh of the post-award table (whatever fails), and with a clean refresh the cache shows the stored balance, 50 above the one before |
| Dashboard.HandlePointsUpdate | app/dashboard/page.tsx:93-97 | with no cached profile nothing changes; otherwise it is `updatePoints`: only `points` changes in the cache and the store, and a matching cache still matches |
| Dashboard.RedeemFromRewardsTab | app/dashboard/page.tsx:326 | a redemption from the rewards tab leaves the store exactly as the redeem route alone does, because the client's second balance write repeats the stored value; after a successful redemption and client write the cached profile keeps all its fields but `points`, which becomes the stored balance, and otherwise it is unchanged; a cache that matched the store still matches it |

## Left out

- Concurrency is not modelled: each request is one sequential step. So the
  lost update between two concurrent award or redeem requests (each reads
  the balance and then writes it) is not captured. The two reads that
  `refreshData` runs with `Promise.all` are modelled one after the other;
  they touch disjoint state. The auth-state subscription of the dashboard is
  not modelled either, and its `user` is a fixed constructor argument of
  `UserData`.
- `checkAndAwardPoints` calls `refreshData` without awaiting it. The model
  runs the refresh to completion inside the claim.
- The Supabase client, `fetch`, JSON parsing and `NextResponse` are replaced
  by the `Store` class and the `Response` value. Store errors appear only
  through `faults`. The texts of the modelled `NoRows` and `DuplicateKey`
  errors are a modelling choice; only `IsNotFound` inspects them.
- JSON values of unexpected types are not modelled. A request field is a
  string or integer, or absent. `null`, a numeric string or `NaN` as
  `points` or `durationMinutes` are out of scope.
- `fetchScreenTimeLogs` turns a null result into `[]`. A successful read
  always returns a list in the model, so that branch is not separate.
- The `created_at` columns of `users` and `rewards` are not modelled, though
  `select("*")` returns them in the profile and the catalog. The foreign keys
  between tables are not modelled either. No modelled logic reads any of these.
- Ties in `.order(...)`: the store's order among equal keys is unspecified.
  The model fixes one order (an insertion sort). Only the properties of
  sortedness and permutation are claimed.
- NameInitials.ToUpper: upper-cases ASCII letters only; JavaScript's
  Unicode case mapping of other letters is not modelled.
- NameInitials.Avatar and NameInitials.Initials: a `char` here is a whole
  Unicode scalar value, while JavaScript's `n[0]` and `.slice(0, 2)` count
  UTF-16 code units. For a name starting with a character outside the Basic
  Multilingual Plane (an emoji, say), the source takes half a surrogate pair
  where the model takes the whole character.
- PointsRoute.AwardPoints, RedeemRoute.Redeem and Dashboard.TodayUsage:
  `user.points + points`, `user.points - reward.points_required` and the
  `reduce` sum of durations are IEEE double arithmetic in the source, and the
  stored columns have a finite range. The model uses unbounded integers, so
  it does not capture rounding of huge values or a store error from a result
  out of a column's range; every sum and difference it computes is exact.
- Floating-point display values are not modelled: the progress percentage
  (app/dashboard/page.tsx:123) and the per-app percentage
  (app/dashboard/page.tsx:251).
- JSX rendering, toasts, loading skeletons and the sign-out button are not
  modelled.
- `fetchRewards` in components/rewards-store.tsx and its hard-coded fallback
  rewards are not modelled; they are presentation only. `HandleRedeem`
  takes the reward id and cost as the button passes them.
- components/leaderboard.tsx and app/leaderboard/page.tsx only display
  precomputed rows and are not part of this model. The same holds for
  components/time-logger.tsx (form input parsing), app/page.tsx (a demo
  page whose own under-goal test uses `<`), the seed route and lib/.
