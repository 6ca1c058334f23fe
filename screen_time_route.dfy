/** `/api/screen-time`: `POST` validates and appends one log entry; `GET`
    lists one user's entries, optionally for one date, newest first. */
module ScreenTimeRoute {
  import opened Common
  import opened Db
  import opened Sequences

  /** The JSON body `{ userId, appName, durationMinutes, date }`. */
  datatype LogRequest = LogRequest(
    userId: Option<string>,
    appName: Option<string>,
    durationMinutes: Option<int>,
    date: Option<string>)

  const MissingFieldsMessage := "Missing required fields"
  const LogFailureMessage := "Failed to log screen time"
  const UserRequiredMessage := "User ID is required"
  const FetchFailureMessage := "Failed to fetch screen time logs"

  /** `!userId || !appName || !durationMinutes || !date` is false: every field
      is present and neither "" nor 0. */
  predicate Complete(req: LogRequest)
  {
    Truthy(req.userId) && Truthy(req.appName) && TruthyNumber(req.durationMinutes) && Truthy(req.date)
  }

  /** The row the store creates; `id` and `created_at` are generated by the store. */
  function EntryOf(req: LogRequest, newId: string, now: int): ScreenTimeEntry
    requires Complete(req)
  {
    ScreenTimeEntry(newId, req.userId.value, req.appName.value, req.durationMinutes.value, req.date.value, now)
  }

  method LogScreenTime(db: Store, req: LogRequest, faults: Faults, newId: string, now: int)
    returns (resp: Response<ScreenTimeEntry>)
    requires db.Valid()
    modifies db
    ensures db.Valid()
    ensures db.users == old(db.users) && db.rewards == old(db.rewards) && db.redemptions == old(db.redemptions)
    ensures !Complete(req) ==> resp == Response(400, Error(MissingFieldsMessage)) && db.logs == old(db.logs)
    ensures Complete(req) && LogInsert in faults ==>
      resp == Response(500, Error(LogFailureMessage)) && db.logs == old(db.logs)
    ensures Complete(req) && LogInsert !in faults ==>
      resp == Response(201, Data(EntryOf(req, newId, now))) && db.logs == old(db.logs) + [EntryOf(req, newId, now)]
  {
    if !Truthy(req.userId) || !Truthy(req.appName) || !TruthyNumber(req.durationMinutes) || !Truthy(req.date) {
      resp := Response(400, Error(MissingFieldsMessage));
      return;
    }

    var entry := ScreenTimeEntry(newId, req.userId.value, req.appName.value, req.durationMinutes.value, req.date.value, now);
    var err := db.InsertLog(entry, faults);
    if err.Some? {
      resp := Response(500, Error(LogFailureMessage));
      return;
    }

    resp := Response(201, Data(entry));
  }

  /** `.eq("user_id", userId)` and, when a date is given, `.eq("date", date)`. */
  predicate Matches(e: ScreenTimeEntry, userId: string, date: Option<string>)
  {
    e.user_id == userId && (date.Some? ==> e.date == date.value)
  }

  /** The ordering key of `.order("created_at", { ascending: false })`. */
  function NewestFirst(e: ScreenTimeEntry): int
  {
    -e.created_at
  }

  /** The entries of `userId` (on `date`, when given), newest first. */
  function LogQuery(logs: seq<ScreenTimeEntry>, userId: string, date: Option<string>): (r: seq<ScreenTimeEntry>)
    ensures forall e :: e in r <==> e in logs && e.user_id == userId && (date.Some? ==> e.date == date.value)
    ensures forall e ::
      multiset(r)[e] == (if e.user_id == userId && (date.Some? ==> e.date == date.value) then multiset(logs)[e] else 0)
    ensures |r| <= |logs|
    ensures forall i, j :: 0 <= i < j < |r| ==> r[i].created_at >= r[j].created_at
  {
    var keep := (e: ScreenTimeEntry) => Matches(e, userId, date);
    SortBy(Filter(logs, keep), NewestFirst)
  }

  /** The date filter of `GET`: applied only when the parameter is truthy. */
  function DateFilter(date: Option<string>): Option<string>
  {
    if Truthy(date) then date else None
  }

  /** The `GET` handler on the query parameters `userId` and `date`. */
  function ScreenTimeGet(logs: seq<ScreenTimeEntry>, userId: Option<string>, date: Option<string>, faults: Faults)
    : (resp: Response<seq<ScreenTimeEntry>>)
  {
    if !Truthy(userId) then Response(400, Error(UserRequiredMessage))
    else if LogsScan in faults then Response(500, Error(FetchFailureMessage))
    else Response(200, Data(LogQuery(logs, userId.value, DateFilter(date))))
  }

  /** The outcomes of `GET`: 400 without a user, 500 on a store error, and
      otherwise the user's entries, restricted to the date only when one is given. */
  lemma ScreenTimeGetOutcomes(logs: seq<ScreenTimeEntry>, userId: Option<string>, date: Option<string>, faults: Faults)
    ensures !Truthy(userId) ==> ScreenTimeGet(logs, userId, date, faults) == Response(400, Error(UserRequiredMessage))
    ensures Truthy(userId) && LogsScan in faults ==>
      ScreenTimeGet(logs, userId, date, faults) == Response(500, Error(FetchFailureMessage))
    ensures Truthy(userId) && LogsScan !in faults ==>
      var resp := ScreenTimeGet(logs, userId, date, faults);
      && resp.status == 200 && resp.payload.Data?
      && (forall e :: e in resp.payload.value <==>
            e in logs && e.user_id == userId.value && (Truthy(date) ==> e.date == date.value))
  {
  }

  /** A logged entry is listed afterwards for its user, both for its date and with no date. */
  lemma LoggedEntryIsListed(logs: seq<ScreenTimeEntry>, req: LogRequest, newId: string, now: int)
    requires Complete(req)
    ensures EntryOf(req, newId, now) in LogQuery(logs + [EntryOf(req, newId, now)], req.userId.value, req.date)
    ensures EntryOf(req, newId, now) in LogQuery(logs + [EntryOf(req, newId, now)], req.userId.value, None)
  {
  }

  /** Logging for one user leaves every other user's listing as it was. */
  lemma {:induction false} LoggingIsInvisibleToOthers(logs: seq<ScreenTimeEntry>, e: ScreenTimeEntry,
                                                      userId: string, date: Option<string>)
    requires e.user_id != userId
    ensures LogQuery(logs + [e], userId, date) == LogQuery(logs, userId, date)
  {
    var keep := (x: ScreenTimeEntry) => Matches(x, userId, date);
    FilterSkipsLast(logs, e, keep);
  }

  /** A duration of 0 and an empty app name are turned away. */
  lemma FalsyFieldsAreRejected(userId: string, date: string)
    ensures !Complete(LogRequest(Some(userId), Some("TikTok"), Some(0), Some(date)))
    ensures !Complete(LogRequest(Some(userId), Some(""), Some(30), Some(date)))
    ensures !Complete(LogRequest(Some(userId), Some("TikTok"), None, Some(date)))
  {
  }
}
