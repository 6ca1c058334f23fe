/** `POST /api/users/points`: a read-modify-write of one user's balance,
    `points + delta`, with no clamping and no idempotency key. */
module PointsRoute {
  import opened Common
  import opened Db

  /** The JSON body `{ userId, points, reason }`; a missing field is `None`. */
  datatype AwardRequest = AwardRequest(userId: Option<string>, points: Option<int>, reason: Option<string>)

  /** The 200 body `{ data, pointsAdded, reason, newTotal }`. */
  datatype AwardBody = AwardBody(data: UserRow, pointsAdded: int, reason: string, newTotal: int)

  const MissingFieldsMessage := "Missing required fields"
  const FailureMessage := "Failed to update points"
  const DefaultReason := "Points awarded"

  datatype Verdict = MissingFields | UserLookupFailed | UpdateFailed | Awarded
  {
    function Status(): int
    {
      match this
      case MissingFields => 400
      case Awarded => 200
      case _ => 500
    }
  }

  /** `!userId || points === undefined` rejects; a delta of 0 is accepted. */
  function VerdictOf(users: map<string, UserRow>, req: AwardRequest, faults: Faults): Verdict
  {
    if !Truthy(req.userId) || req.points.None? then MissingFields
    else if FindUser(users, req.userId.value, faults).Failure? then UserLookupFailed
    else if PointsUpdate in faults then UpdateFailed
    else Awarded
  }

  /** The balance write of a successful award. */
  function AddPoints(users: map<string, UserRow>, id: string, delta: int): map<string, UserRow>
    requires id in users
  {
    SetPoints(users, id, users[id].points + delta)
  }

  /** The `users` table after the request. */
  function UsersAfter(users: map<string, UserRow>, req: AwardRequest, faults: Faults): (r: map<string, UserRow>)
    ensures r.Keys == users.Keys
    ensures forall id :: id in users && (req.userId.None? || id != req.userId.value) ==> r[id] == users[id]
  {
    if VerdictOf(users, req, faults) == Awarded
    then AddPoints(users, req.userId.value, req.points.value)
    else users
  }

  method AwardPoints(db: Store, req: AwardRequest, faults: Faults)
    returns (resp: Response<AwardBody>, ghost verdict: Verdict)
    requires db.Valid()
    modifies db
    ensures db.Valid()
    ensures verdict == VerdictOf(old(db.users), req, faults)
    ensures db.users == UsersAfter(old(db.users), req, faults)
    ensures db.rewards == old(db.rewards) && db.logs == old(db.logs) && db.redemptions == old(db.redemptions)
    ensures resp.status == verdict.Status()
    ensures verdict == MissingFields ==> resp.payload == Error(MissingFieldsMessage)
    ensures verdict == UserLookupFailed || verdict == UpdateFailed ==> resp.payload == Error(FailureMessage)
    ensures verdict == Awarded ==>
      var id := req.userId.value;
      resp.payload == Data(AwardBody(db.users[id], req.points.value, OrElse(req.reason, DefaultReason),
                                     old(db.users)[id].points + req.points.value))
  {
    verdict := VerdictOf(db.users, req, faults);
    if !Truthy(req.userId) || req.points.None? {
      resp := Response(400, Error(MissingFieldsMessage));
      return;
    }
    var userId, points := req.userId.value, req.points.value;

    var user := FindUser(db.users, userId, faults);
    if user.Failure? {
      resp := Response(500, Error(FailureMessage));
      return;
    }

    var newPoints := user.value.points + points;
    var err := db.UpdatePoints(userId, newPoints, faults);
    if err.Some? {
      resp := Response(500, Error(FailureMessage));
      return;
    }
    var data := db.users[userId];

    resp := Response(200, Data(AwardBody(data, points, OrElse(req.reason, DefaultReason), newPoints)));
  }

  /** A successful award adds exactly the delta to the addressed user's
      balance, without clamping, and changes no other field and no other user. */
  lemma AwardAddsExactlyTheDelta(users: map<string, UserRow>, req: AwardRequest, faults: Faults)
    requires VerdictOf(users, req, faults) == Awarded
    ensures req.userId.value in users
    ensures var after := UsersAfter(users, req, faults);
      && after.Keys == users.Keys
      && after[req.userId.value] == users[req.userId.value].(points := users[req.userId.value].points + req.points.value)
      && (forall id :: id in users && id != req.userId.value ==> after[id] == users[id])
  {
  }

  /** Every failing request leaves the table as it was. */
  lemma FailedAwardChangesNothing(users: map<string, UserRow>, req: AwardRequest, faults: Faults)
    requires VerdictOf(users, req, faults) != Awarded
    ensures UsersAfter(users, req, faults) == users
  {
  }

  /** A zero delta is accepted (only an absent one is rejected). */
  lemma ZeroDeltaIsAccepted(users: map<string, UserRow>, id: string)
    requires id != "" && id in users
    ensures VerdictOf(users, AwardRequest(Some(id), Some(0), None), map[]) == Awarded
    ensures UsersAfter(users, AwardRequest(Some(id), Some(0), None), map[]) == users
  {
    SetPointsToCurrent(users, id);
  }

  /** Not idempotent: two awards of `d` add `2 * d`. */
  lemma {:induction false} AwardTwiceAddsTwice(users: map<string, UserRow>, id: string, d: int)
    requires id in users
    ensures id in AddPoints(users, id, d)
    ensures AddPoints(AddPoints(users, id, d), id, d) == AddPoints(users, id, 2 * d)
    ensures d != 0 ==> AddPoints(AddPoints(users, id, d), id, d) != AddPoints(users, id, d)
  {
    var once := AddPoints(users, id, d);
    assert once[id].points == users[id].points + d;
    SetPointsTwice(users, id, users[id].points + d, users[id].points + 2 * d);
    if d != 0 {
      assert AddPoints(once, id, d)[id].points != once[id].points;
    }
  }

  /** A negative delta can take a balance below zero. */
  lemma AwardCanOverdraw()
    ensures var users := map["u" := UserRow("u", "u@example.com", "U", 10, 120, 0)];
      AddPoints(users, "u", -20)["u"].points == -10
  {
  }

  /** Balance 100 and delta 50 give 150, reported as `newTotal`. */
  lemma AwardExample()
    ensures var users := map["u" := UserRow("u", "u@example.com", "U", 100, 120, 0)];
      var req := AwardRequest(Some("u"), Some(50), None);
      VerdictOf(users, req, map[]) == Awarded && UsersAfter(users, req, map[])["u"].points == 150
  {
  }
}
