/** The hosted store as the routes and the client hook see it: the four
    tables of lib/supabase.ts and the single-row calls made on them. Which
    call fails, and with what error, is a parameter (`faults`); row ids and
    timestamps the store would generate are passed in by the caller. */
module Db {
  import opened Common

  /** A row of `users`. `created_at` is not used by any logic and is left out. */
  datatype UserRow = UserRow(
    id: string,
    email: string,
    full_name: string,
    points: int,
    daily_goal: int,
    streak: int)

  /** A row of `rewards`. */
  datatype Reward = Reward(
    id: string,
    name: string,
    description: string,
    points_required: int,
    category: string,
    available: bool)

  /** A row of `screen_time_logs`; `created_at` is a timestamp ordered as an integer. */
  datatype ScreenTimeEntry = ScreenTimeEntry(
    id: string,
    user_id: string,
    app_name: string,
    duration_minutes: int,
    date: string,
    created_at: int)

  /** A row of `reward_redemptions`. */
  datatype Redemption = Redemption(
    id: string,
    user_id: string,
    reward_id: string,
    redeemed_at: int,
    status: string)

  /** The store calls the modelled code makes. */
  datatype Call =
    | UserLookup | RewardLookup
    | UsersScan | RewardsScan | LogsScan
    | UserInsert | RedemptionInsert | LogInsert
    | PointsUpdate

  datatype DbError = DbError(code: string, message: string)

  /** The calls that fail during one request, each with the error it returns. */
  type Faults = map<Call, DbError>

  /** `.single()` on an empty result. */
  const NoRows := DbError("PGRST116", "The result contains 0 rows")

  /** An insert whose primary key is already present. */
  const DuplicateKey := DbError("23505", "duplicate key value violates unique constraint")

  /** Every row is filed under its own id. */
  ghost predicate UsersKeyed(users: map<string, UserRow>)
  {
    forall id :: id in users ==> users[id].id == id
  }

  ghost predicate RewardsKeyed(rewards: map<string, Reward>)
  {
    forall id :: id in rewards ==> rewards[id].id == id
  }

  /** No two rows of a scan share an id (the id is the primary key). */
  predicate DistinctUserIds(table: seq<UserRow>)
  {
    forall i, j :: 0 <= i < j < |table| ==> table[i].id != table[j].id
  }

  predicate DistinctRewardIds(table: seq<Reward>)
  {
    forall i, j :: 0 <= i < j < |table| ==> table[i].id != table[j].id
  }

  /** `table` lists the rows of `users` once each, in the store's scan order. */
  ghost predicate ListsUsers(table: seq<UserRow>, users: map<string, UserRow>)
  {
    && (forall i :: 0 <= i < |table| ==> table[i].id in users && users[table[i].id] == table[i])
    && (forall id :: id in users ==> users[id] in table)
    && DistinctUserIds(table)
  }

  ghost predicate ListsRewards(table: seq<Reward>, rewards: map<string, Reward>)
  {
    && (forall i :: 0 <= i < |table| ==> table[i].id in rewards && rewards[table[i].id] == table[i])
    && (forall id :: id in rewards ==> rewards[id] in table)
    && DistinctRewardIds(table)
  }

  /** The ids of a scan. */
  function UserIds(table: seq<UserRow>): (ids: set<string>)
    ensures forall i :: 0 <= i < |table| ==> table[i].id in ids
    ensures forall id :: id in ids ==> exists i :: 0 <= i < |table| && table[i].id == id
    ensures |ids| <= |table|
  {
    if table == [] then {} else {table[0].id} + UserIds(table[1..])
  }

  /** Distinct ids are as many as the rows. */
  lemma {:induction false} DistinctUserIdsCount(table: seq<UserRow>)
    requires DistinctUserIds(table)
    ensures |UserIds(table)| == |table|
  {
    if table != [] {
      var rest := table[1..];
      assert DistinctUserIds(rest) by {
        forall i, j | 0 <= i < j < |rest|
          ensures rest[i].id != rest[j].id
        {
          assert rest[i] == table[i + 1] && rest[j] == table[j + 1];
        }
      }
      DistinctUserIdsCount(rest);
      assert table[0].id !in UserIds(rest);
    }
  }

  /** A scan of a keyed users table has exactly one row per stored user. */
  lemma ListedUsersCount(table: seq<UserRow>, users: map<string, UserRow>)
    requires UsersKeyed(users) && ListsUsers(table, users)
    ensures |table| == |users|
  {
    var ids := UserIds(table);
    forall id | id in users
      ensures id in ids
    {
      var k :| 0 <= k < |table| && table[k] == users[id];
    }
    assert ids == users.Keys;
    DistinctUserIdsCount(table);
  }

  /** `.from("users").select(...).eq("id", id).single()`. */
  function FindUser(users: map<string, UserRow>, id: string, faults: Faults): Result<UserRow, DbError>
  {
    if UserLookup in faults then Failure(faults[UserLookup])
    else if id in users then Success(users[id])
    else Failure(NoRows)
  }

  /** `.from("rewards").select(...).eq("id", id).single()`. */
  function FindReward(rewards: map<string, Reward>, id: string, faults: Faults): Result<Reward, DbError>
  {
    if RewardLookup in faults then Failure(faults[RewardLookup])
    else if id in rewards then Success(rewards[id])
    else Failure(NoRows)
  }

  /** `.update({ points: n }).eq("id", id)`: rewrites one field of one row;
      with no matching row nothing is updated and no error is raised. */
  function SetPoints(users: map<string, UserRow>, id: string, n: int): (r: map<string, UserRow>)
    ensures r.Keys == users.Keys
    ensures forall k :: k in users && k != id ==> r[k] == users[k]
    ensures id in users ==> r[id] == users[id].(points := n)
  {
    if id in users then users[id := users[id].(points := n)] else users
  }

  /** Writing the balance a row already has changes nothing. */
  lemma SetPointsToCurrent(users: map<string, UserRow>, id: string)
    requires id in users
    ensures SetPoints(users, id, users[id].points) == users
  {
    assert users[id].(points := users[id].points) == users[id];
  }

  /** A later balance write overrides an earlier one. */
  lemma SetPointsTwice(users: map<string, UserRow>, id: string, a: int, b: int)
    ensures SetPoints(SetPoints(users, id, a), id, b) == SetPoints(users, id, b)
  {
  }

  lemma SetPointsKeepsKeyed(users: map<string, UserRow>, id: string, n: int)
    requires UsersKeyed(users)
    ensures UsersKeyed(SetPoints(users, id, n))
  {
  }

  class Store {
    var users: map<string, UserRow>
    var rewards: map<string, Reward>
    var logs: seq<ScreenTimeEntry>
    var redemptions: seq<Redemption>

    ghost predicate Valid()
      reads this
    {
      UsersKeyed(users) && RewardsKeyed(rewards)
    }

    /** A store with empty tables. */
    constructor ()
      ensures Valid()
      ensures users == map[] && rewards == map[] && logs == [] && redemptions == []
    {
      users := map[];
      rewards := map[];
      logs := [];
      redemptions := [];
    }

    /** `.from("users").insert(row)`. */
    method InsertUser(row: UserRow, faults: Faults) returns (err: Option<DbError>)
      requires Valid()
      modifies this
      ensures Valid()
      ensures err == (if UserInsert in faults then Some(faults[UserInsert])
                      else if row.id in old(users) then Some(DuplicateKey)
                      else None)
      ensures users == (if err.None? then old(users)[row.id := row] else old(users))
      ensures rewards == old(rewards) && logs == old(logs) && redemptions == old(redemptions)
    {
      if UserInsert in faults {
        err := Some(faults[UserInsert]);
      } else if row.id in users {
        err := Some(DuplicateKey);
      } else {
        users := users[row.id := row];
        err := None;
      }
    }

    /** `.from("reward_redemptions").insert(row)`. */
    method InsertRedemption(row: Redemption, faults: Faults) returns (err: Option<DbError>)
      requires Valid()
      modifies this
      ensures Valid()
      ensures err == (if RedemptionInsert in faults then Some(faults[RedemptionInsert]) else None)
      ensures redemptions == (if err.None? then old(redemptions) + [row] else old(redemptions))
      ensures users == old(users) && rewards == old(rewards) && logs == old(logs)
    {
      if RedemptionInsert in faults {
        err := Some(faults[RedemptionInsert]);
      } else {
        redemptions := redemptions + [row];
        err := None;
      }
    }

    /** `.from("screen_time_logs").insert(entry)`. */
    method InsertLog(entry: ScreenTimeEntry, faults: Faults) returns (err: Option<DbError>)
      requires Valid()
      modifies this
      ensures Valid()
      ensures err == (if LogInsert in faults then Some(faults[LogInsert]) else None)
      ensures logs == (if err.None? then old(logs) + [entry] else old(logs))
      ensures users == old(users) && rewards == old(rewards) && redemptions == old(redemptions)
    {
      if LogInsert in faults {
        err := Some(faults[LogInsert]);
      } else {
        logs := logs + [entry];
        err := None;
      }
    }

    /** `.from("users").update({ points: n }).eq("id", id)`. */
    method UpdatePoints(id: string, n: int, faults: Faults) returns (err: Option<DbError>)
      requires Valid()
      modifies this
      ensures Valid()
      ensures err == (if PointsUpdate in faults then Some(faults[PointsUpdate]) else None)
      ensures users == (if err.None? then SetPoints(old(users), id, n) else old(users))
      ensures rewards == old(rewards) && logs == old(logs) && redemptions == old(redemptions)
    {
      if PointsUpdate in faults {
        err := Some(faults[PointsUpdate]);
      } else {
        SetPointsKeepsKeyed(users, id, n);
        users := SetPoints(users, id, n);
        err := None;
      }
    }
  }
}
