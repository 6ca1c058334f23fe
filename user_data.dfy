/** `useUserData`: the client-side cache of the signed-in user's profile and
    of today's screen-time entries, filled from the store, with a
    default profile created on first sign-in and a points write-through. */
module UserDataHook {
  import opened Common
  import opened Db
  import ScreenTimeRoute

  /** The signed-in account: its id, `email` and `user_metadata.full_name`. */
  datatype AuthUser = AuthUser(id: string, email: Option<string>, fullName: Option<string>)

  const DefaultName := "Student User"
  const DefaultEmail := "unknown@example.com"
  const DefaultDailyGoal := 120

  /** The row inserted for an account that has none yet. */
  function DefaultProfile(user: AuthUser): UserRow
  {
    UserRow(user.id, OrElse(user.email, DefaultEmail), OrElse(user.fullName, DefaultName), 0, DefaultDailyGoal, 0)
  }

  /** `error.code === "PGRST116" || error.message.includes("No rows")`. */
  predicate IsNotFound(err: DbError)
  {
    err.code == "PGRST116" || Contains(err.message, "No rows")
  }

  /** Whether the profile read ends in inserting the default row: the
      lookup reports no row, and the insert then goes through. */
  predicate CreatesDefault(users: map<string, UserRow>, user: AuthUser, faults: Faults)
  {
    var found := FindUser(users, user.id, faults);
    found.Failure? && IsNotFound(found.error) && UserInsert !in faults && user.id !in users
  }

  /** The profile `fetchUserProfile` stores, or `None` when it stores nothing. */
  function FetchedProfile(users: map<string, UserRow>, user: AuthUser, faults: Faults): Option<UserRow>
  {
    var found := FindUser(users, user.id, faults);
    if found.Success? then Some(found.value)
    else if CreatesDefault(users, user, faults) then Some(DefaultProfile(user))
    else None
  }

  /** The `users` table after `fetchUserProfile`. */
  function UsersAfterFetch(users: map<string, UserRow>, user: AuthUser, faults: Faults): (r: map<string, UserRow>)
    ensures r.Keys <= users.Keys + {user.id}
    ensures forall id :: id in users ==> id in r && r[id] == users[id]
  {
    if CreatesDefault(users, user, faults) then users[user.id := DefaultProfile(user)] else users
  }

  class UserData {
    /** The hook's argument: the signed-in account, if any. */
    const user: Option<AuthUser>
    var profile: Option<UserRow>
    var screenTimeLogs: seq<ScreenTimeEntry>
    var loading: bool

    /** A cached profile is the signed-in account's own. */
    ghost predicate Valid()
      reads this
    {
      profile.Some? ==> user.Some? && profile.value.id == user.value.id
    }

    /** The cached profile equals the stored row. */
    ghost predicate CoherentWith(users: map<string, UserRow>)
      reads this
    {
      user.Some? && user.value.id in users && profile == Some(users[user.value.id])
    }

    constructor(user: Option<AuthUser>)
      ensures Valid()
      ensures this.user == user && profile.None? && screenTimeLogs == [] && loading
    {
      this.user := user;
      profile := None;
      screenTimeLogs := [];
      loading := true;
    }

    method FetchUserProfile(db: Store, faults: Faults)
      requires Valid() && db.Valid()
      modifies this`profile, db
      ensures Valid() && db.Valid()
      ensures user.None? ==> profile == old(profile) && db.users == old(db.users)
      ensures user.Some? ==>
        && db.users == UsersAfterFetch(old(db.users), user.value, faults)
        && profile == (if FetchedProfile(old(db.users), user.value, faults).Some?
                       then FetchedProfile(old(db.users), user.value, faults) else old(profile))
      ensures db.rewards == old(db.rewards) && db.logs == old(db.logs) && db.redemptions == old(db.redemptions)
    {
      if user.None? {
        return;
      }
      var found := FindUser(db.users, user.value.id, faults);
      if found.Success? {
        profile := Some(found.value);
      } else if IsNotFound(found.error) {
        var row := DefaultProfile(user.value);
        var err := db.InsertUser(row, faults);
        if err.None? {
          profile := Some(row);
        }
      }
    }

    method FetchScreenTimeLogs(db: Store, faults: Faults, today: string)
      modifies this`screenTimeLogs
      ensures screenTimeLogs ==
        (if user.Some? && LogsScan !in faults
         then ScreenTimeRoute.LogQuery(db.logs, user.value.id, Some(today))
         else old(screenTimeLogs))
    {
      if user.None? {
        return;
      }
      if LogsScan in faults {
        return;
      }
      screenTimeLogs := ScreenTimeRoute.LogQuery(db.logs, user.value.id, Some(today));
    }

    /** `updatePoints(newPoints)`: writes the balance, then mirrors it in the cache. */
    method UpdatePoints(db: Store, newPoints: int, faults: Faults)
      requires Valid() && db.Valid()
      modifies this`profile, db
      ensures Valid() && db.Valid()
      ensures user.None? || old(profile).None? || PointsUpdate in faults ==>
        profile == old(profile) && db.users == old(db.users)
      ensures user.Some? && old(profile).Some? && PointsUpdate !in faults ==>
        && profile == Some(old(profile).value.(points := newPoints))
        && db.users == SetPoints(old(db.users), user.value.id, newPoints)
      ensures old(CoherentWith(db.users)) ==> CoherentWith(db.users)
      ensures db.rewards == old(db.rewards) && db.logs == old(db.logs) && db.redemptions == old(db.redemptions)
    {
      if user.None? || profile.None? {
        return;
      }
      var err := db.UpdatePoints(user.value.id, newPoints, faults);
      if err.Some? {
        return;
      }
      profile := Some(profile.value.(points := newPoints));
    }

    /** `refreshData`: both reads, with `loading` raised around them. */
    method RefreshData(db: Store, faults: Faults, today: string)
      requires Valid() && db.Valid()
      modifies this`profile, this`screenTimeLogs, this`loading, db
      ensures Valid() && db.Valid()
      ensures !loading
      ensures user.None? ==> profile == old(profile) && screenTimeLogs == old(screenTimeLogs) && db.users == old(db.users)
      ensures user.Some? ==>
        && db.users == UsersAfterFetch(old(db.users), user.value, faults)
        && profile == (if FetchedProfile(old(db.users), user.value, faults).Some?
                       then FetchedProfile(old(db.users), user.value, faults) else old(profile))
        && screenTimeLogs == (if LogsScan !in faults
                              then ScreenTimeRoute.LogQuery(old(db.logs), user.value.id, Some(today))
                              else old(screenTimeLogs))
      ensures db.rewards == old(db.rewards) && db.logs == old(db.logs) && db.redemptions == old(db.redemptions)
    {
      loading := true;
      FetchUserProfile(db, faults);
      FetchScreenTimeLogs(db, faults, today);
      loading := false;
    }

    /** The mount effect: a refresh for a signed-in account, otherwise just
        the end of loading. */
    method Mount(db: Store, faults: Faults, today: string)
      requires Valid() && db.Valid()
      modifies this`profile, this`screenTimeLogs, this`loading, db
      ensures Valid() && db.Valid() && !loading
      ensures user.None? ==>
        profile == old(profile) && screenTimeLogs == old(screenTimeLogs) && db.users == old(db.users)
      ensures user.Some? ==>
        && db.users == UsersAfterFetch(old(db.users), user.value, faults)
        && profile == (if FetchedProfile(old(db.users), user.value, faults).Some?
                       then FetchedProfile(old(db.users), user.value, faults) else old(profile))
        && screenTimeLogs == (if LogsScan !in faults
                              then ScreenTimeRoute.LogQuery(old(db.logs), user.value.id, Some(today))
                              else old(screenTimeLogs))
      ensures user.Some? && faults == map[] ==>
        && user.value.id in db.users
        && profile == Some(db.users[user.value.id])
        && screenTimeLogs == ScreenTimeRoute.LogQuery(db.logs, user.value.id, Some(today))
      ensures db.rewards == old(db.rewards) && db.logs == old(db.logs) && db.redemptions == old(db.redemptions)
    {
      if user.Some? {
        RefreshData(db, faults, today);
        if faults == map[] {
          FetchWithoutFaultsLoadsStoredRow(old(db.users), user.value);
        }
      } else {
        loading := false;
      }
    }
  }

  /** A profile read with no store error always ends with a cached profile
      that is the stored row: the existing one, or the default just inserted. */
  lemma FetchWithoutFaultsLoadsStoredRow(users: map<string, UserRow>, user: AuthUser)
    ensures var after := UsersAfterFetch(users, user, map[]);
      user.id in after && FetchedProfile(users, user, map[]) == Some(after[user.id])
  {
    assert IsNotFound(NoRows);
  }

  /** First sign-in: with no row for the account, the inserted and cached
      profile has 0 points, a 120-minute goal, a 0-day streak and the
      account's name and email, falling back to "Student User" and
      "unknown@example.com". */
  lemma FirstSignInCreatesDefaultProfile(users: map<string, UserRow>, user: AuthUser, faults: Faults)
    requires user.id !in users
    requires UserLookup !in faults && UserInsert !in faults
    ensures FetchedProfile(users, user, faults).Some?
    ensures var p := FetchedProfile(users, user, faults).value;
      && p.id == user.id && p.points == 0 && p.daily_goal == 120 && p.streak == 0
      && p.full_name == (if Truthy(user.fullName) then user.fullName.value else "Student User")
      && p.email == (if Truthy(user.email) then user.email.value else "unknown@example.com")
    ensures UsersAfterFetch(users, user, faults) == users[user.id := FetchedProfile(users, user, faults).value]
  {
    assert IsNotFound(NoRows);
  }

  /** An existing row is loaded as it is and never overwritten. */
  lemma ExistingProfileIsLoaded(users: map<string, UserRow>, user: AuthUser, faults: Faults)
    requires user.id in users && UserLookup !in faults
    ensures FetchedProfile(users, user, faults) == Some(users[user.id])
    ensures UsersAfterFetch(users, user, faults) == users
  {
  }

  /** A lookup error that is not "no rows", or a failed insert, stores no
      profile and leaves the table as it was. */
  lemma OtherErrorsStoreNothing(users: map<string, UserRow>, user: AuthUser, faults: Faults)
    requires (UserLookup in faults && !IsNotFound(faults[UserLookup]))
          || (user.id !in users && UserLookup !in faults && UserInsert in faults)
    ensures FetchedProfile(users, user, faults).None?
    ensures UsersAfterFetch(users, user, faults) == users
  {
  }

  /** A not-found error matched by its message rather than its code also
      leads to the default row. */
  lemma NoRowsMessageIsNotFound()
    ensures IsNotFound(DbError("", "No rows found"))
    ensures !IsNotFound(DbError("42501", "permission denied"))
  {
    assert "No rows" <= "No rows found";
    assert 'N' !in "permission denied";
    if Contains("permission denied", "No rows") {
      ContainsHasFirstCharacter("permission denied", "No rows");
    }
  }

  /** Whatever its code, an error whose message contains "No rows" anywhere
      counts as not found. */
  lemma NoRowsAnywhereIsNotFound(code: string, before: string, after: string)
    ensures IsNotFound(DbError(code, before + "No rows" + after))
  {
    ContainsInfix(before, "No rows", after);
  }

  /** `includes` finds a text wherever it occurs. */
  lemma {:induction false} ContainsInfix(before: string, part: string, after: string)
    ensures Contains(before + part + after, part)
  {
    if before == [] {
      assert before + part + after == part + after;
      assert part <= part + after;
    } else {
      assert (before + part + after)[1..] == before[1..] + part + after;
      ContainsInfix(before[1..], part, after);
    }
  }

  lemma {:induction false} ContainsHasFirstCharacter(text: string, part: string)
    requires part != [] && Contains(text, part)
    ensures part[0] in text
  {
    if !(part <= text) {
      ContainsHasFirstCharacter(text[1..], part);
    }
  }

  /** Reading the profile twice is the same as reading it once: the second
      read finds the row the first one inserted. */
  lemma {:induction false} FetchIsIdempotent(users: map<string, UserRow>, user: AuthUser)
    ensures var once := UsersAfterFetch(users, user, map[]);
      && UsersAfterFetch(once, user, map[]) == once
      && FetchedProfile(once, user, map[]) == FetchedProfile(users, user, map[])
  {
    FetchWithoutFaultsLoadsStoredRow(users, user);
  }
}
