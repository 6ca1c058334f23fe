/** `GET /api/leaderboard`: the users ordered by points, highest first, cut
    to ten, each with its position as `rank` and two-letter initials as
    `avatar`. */
module LeaderboardRoute {
  import opened Common
  import opened Db
  import opened Sequences
  import opened NameInitials

  datatype LeaderboardRow = LeaderboardRow(
    id: string,
    full_name: string,
    points: int,
    streak: int,
    rank: int,
    avatar: string)

  /** `.limit(10)`. */
  const Limit := 10

  const FailureMessage := "Failed to fetch leaderboard"

  /** `.order("points", { ascending: false })` as an ascending order on the negated key. */
  function NegatedPoints(u: UserRow): int
  {
    -u.points
  }

  /** The row's copied columns are those of `u`. */
  predicate Copies(row: LeaderboardRow, u: UserRow)
  {
    row.id == u.id && row.full_name == u.full_name && row.points == u.points && row.streak == u.streak
  }

  /** Some row of `table` has the copied columns of `row`. */
  predicate CopiesSome(row: LeaderboardRow, table: seq<UserRow>)
  {
    exists u :: u in table && Copies(row, u)
  }

  /** Each row copies the user at the same position of `top`. */
  predicate RowsCopy(rows: seq<LeaderboardRow>, top: seq<UserRow>)
  {
    |rows| == |top| && forall i :: 0 <= i < |rows| ==> Copies(rows[i], top[i])
  }

  /** The rows copy, position by position, users drawn from `table` without
      reusing any of its rows. */
  ghost predicate CopiesDrawnFrom(rows: seq<LeaderboardRow>, table: seq<UserRow>)
  {
    exists top :: RowsCopy(rows, top) && multiset(top) <= multiset(table)
  }

  /** The selected users: sorted by points, highest first, at most ten. */
  function TopUsers(table: seq<UserRow>): (top: seq<UserRow>)
    ensures |top| == Min(Limit, |table|)
    ensures forall i, j :: 0 <= i < j < |top| ==> top[i].points >= top[j].points
    ensures multiset(top) <= multiset(table)
  {
    var sorted := SortBy(table, NegatedPoints);
    PrefixIsSubMultiset(sorted, Min(Limit, |table|));
    sorted[..Min(Limit, |table|)]
  }

  /** The row built for the user at position `index`. */
  function RowFor(u: UserRow, index: nat): (row: LeaderboardRow)
  {
    LeaderboardRow(u.id, u.full_name, u.points, u.streak, index + 1, Avatar(u.full_name))
  }

  /** `data.map((user, index) => ({ ...user, rank: index + 1, avatar }))`. */
  function Leaderboard(table: seq<UserRow>): (rows: seq<LeaderboardRow>)
    ensures |rows| == Min(Limit, |table|) && |rows| <= Limit
    ensures forall i :: 0 <= i < |rows| ==> rows[i].rank == i + 1
    ensures forall i, j :: 0 <= i < j < |rows| ==> rows[i].points >= rows[j].points
    ensures forall i :: 0 <= i < |rows| ==> rows[i].avatar == Avatar(rows[i].full_name) && |rows[i].avatar| <= 2
    ensures forall i :: 0 <= i < |rows| ==> CopiesSome(rows[i], table)
    ensures CopiesDrawnFrom(rows, table)
  {
    var top := TopUsers(table);
    var rows := seq(|top|, i requires 0 <= i < |top| => RowFor(top[i], i));
    LeaderboardRowsCopyTop(table, top, rows);
    rows
  }

  lemma LeaderboardRowsCopyTop(table: seq<UserRow>, top: seq<UserRow>, rows: seq<LeaderboardRow>)
    requires multiset(top) <= multiset(table)
    requires |rows| == |top| && forall i :: 0 <= i < |rows| ==> rows[i] == RowFor(top[i], i)
    ensures forall i :: 0 <= i < |rows| ==> CopiesSome(rows[i], table)
    ensures CopiesDrawnFrom(rows, table)
  {
    assert RowsCopy(rows, top);
    forall i | 0 <= i < |rows|
      ensures CopiesSome(rows[i], table)
    {
      assert top[i] in multiset(top);
      var u := top[i];
      assert u in table;
      assert rows[i] == RowFor(u, i);
      assert Copies(rows[i], u);
      assert CopiesSome(rows[i], table);
    }
  }

  /** The handler: a store error gives 500, otherwise 200 with the rows. */
  function LeaderboardGet(table: seq<UserRow>, faults: Faults): Response<seq<LeaderboardRow>>
  {
    if UsersScan in faults then Response(500, Error(FailureMessage))
    else Response(200, Data(Leaderboard(table)))
  }

  /** Nobody left out of the leaderboard has more points than anyone on it:
      every listed user is either on it or has at most the points of each row. */
  lemma {:induction false} LeaderboardIsTopTen(table: seq<UserRow>, u: UserRow)
    requires u in table
    ensures var rows := Leaderboard(table);
      || (exists i :: 0 <= i < |rows| && Copies(rows[i], u))
      || (forall i :: 0 <= i < |rows| ==> u.points <= rows[i].points)
  {
    var sorted := SortBy(table, NegatedPoints);
    var n := Min(Limit, |table|);
    var rows := Leaderboard(table);
    assert u in multiset(sorted);
    var k :| 0 <= k < |sorted| && sorted[k] == u;
    if k < n {
      assert Copies(rows[k], u);
    } else {
      forall i | 0 <= i < |rows|
        ensures u.points <= rows[i].points
      {
        assert NegatedPoints(sorted[i]) <= NegatedPoints(sorted[k]);
      }
    }
  }

  /** Read from the `users` table, every row is that user's stored record. */
  lemma LeaderboardRowsAreStored(table: seq<UserRow>, users: map<string, UserRow>)
    requires ListsUsers(table, users)
    ensures forall i :: 0 <= i < |Leaderboard(table)| ==>
      var row := Leaderboard(table)[i];
      row.id in users && Copies(row, users[row.id])
  {
    var rows := Leaderboard(table);
    forall i | 0 <= i < |rows|
      ensures rows[i].id in users && Copies(rows[i], users[rows[i].id])
    {
      assert CopiesSome(rows[i], table);
      var u :| u in table && Copies(rows[i], u);
      var k :| 0 <= k < |table| && table[k] == u;
    }
  }

  /** The rows are built from the selected users, position by position. */
  lemma LeaderboardCopiesTopUsers(table: seq<UserRow>)
    ensures RowsCopy(Leaderboard(table), TopUsers(table))
  {
  }

  /** Users drawn from a scan without reusing its rows have distinct ids. */
  lemma DrawnUsersHaveDistinctIds(top: seq<UserRow>, table: seq<UserRow>, users: map<string, UserRow>)
    requires ListsUsers(table, users) && multiset(top) <= multiset(table)
    ensures DistinctUserIds(top)
  {
    assert Distinct(table) by {
      forall i, j | 0 <= i < j < |table|
        ensures table[i] != table[j]
      {
        assert table[i].id != table[j].id;
      }
    }
    SubMultisetOfDistinct(top, table);
    forall i, j | 0 <= i < j < |top|
      ensures top[i].id != top[j].id
    {
      assert top[i] in multiset(table) && top[j] in multiset(table);
      var a :| 0 <= a < |table| && table[a] == top[i];
      var b :| 0 <= b < |table| && table[b] == top[j];
      assert top[i] == users[top[i].id] && top[j] == users[top[j].id];
    }
  }

  /** Read from a keyed `users` table, the leaderboard lists each user at
      most once and has min(10, number of users) rows. */
  lemma LeaderboardListsEachUserOnce(table: seq<UserRow>, users: map<string, UserRow>)
    requires UsersKeyed(users) && ListsUsers(table, users)
    ensures var rows := Leaderboard(table);
      forall i, j :: 0 <= i < j < |rows| ==> rows[i].id != rows[j].id
    ensures |Leaderboard(table)| == Min(Limit, |users|)
  {
    ListedUsersCount(table, users);
    var rows := Leaderboard(table);
    var top := TopUsers(table);
    LeaderboardCopiesTopUsers(table);
    DrawnUsersHaveDistinctIds(top, table, users);
    forall i, j | 0 <= i < j < |rows|
      ensures rows[i].id != rows[j].id
    {
      assert rows[i].id == top[i].id && rows[j].id == top[j].id;
    }
  }

  /** An error from the store yields 500 and no rows; otherwise 200. */
  lemma LeaderboardGetStatus(table: seq<UserRow>, faults: Faults)
    ensures LeaderboardGet(table, faults).status == (if UsersScan in faults then 500 else 200)
    ensures LeaderboardGet(table, faults).payload.Data? <==> UsersScan !in faults
  {
  }
}
