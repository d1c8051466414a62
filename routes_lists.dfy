/**
 * `app/api/lists/route.ts`: the per-release list status of the session user.
 * The list helpers `addToList`, `removeFromList` and `getUserListStatus` are
 * not part of this model: the model records each call the handlers make in the
 * store's call log, and whether the call throws, and the status it reads, are
 * parameters.
 */
module ListRoutes {
  import opened Wrappers
  import Js
  import Store
  import Auth
  import opened Http

  const Unauthorized: string := "Unauthorized"
  const FieldsRequired: string := "Release ID and status are required"
  const InvalidStatus: string := "Invalid status"
  const ReleaseIdRequired: string := "Release ID is required"
  const AddFailed: string := "Failed to add to list"
  const RemoveFailed: string := "Failed to remove from list"
  const CheckFailed: string := "Failed to check list status"

  /** The five list statuses a `POST` accepts. */
  const ValidStatuses: seq<string> := ["watching", "completed", "on_hold", "dropped", "planned"]

  /** `validStatuses.includes(status)`: strict equality, so only a string can match. */
  predicate IsValidStatus(status: Js.Value) {
    status.Str? && status.s in ValidStatuses
  }

  lemma IsValidStatusSpec(status: Js.Value)
    ensures IsValidStatus(status) <==>
              status == Js.Str("watching") || status == Js.Str("completed") || status == Js.Str("on_hold")
              || status == Js.Str("dropped") || status == Js.Str("planned")
    ensures IsValidStatus(status) ==> Js.Truthy(status)
  {
  }

  /** The session user of a request, or `None`. */
  function SessionUser(cookies: map<string, Auth.Cookie>, t: Store.Tables): Option<Store.UserRow> {
    Auth.GetSession(cookies, t)
  }

  /**
   * `POST /api/lists`: 401 before any validation; 400 when a field is missing
   * or the status is not one of the five; otherwise one `addToList` call with
   * the session user, the raw `releaseId` and the status, which is echoed back.
   * `succeeds` says whether that call returns normally.
   */
  method AddToList(db: Store.Database, jar: Auth.CookieJar, req: Request, succeeds: Store.ListCall -> bool)
    returns (resp: Response)
    requires db.Valid()
    modifies db
    ensures db.Valid()
    ensures SessionUser(jar.cookies, old(db.State())).None? ==> resp == Fail(401, Unauthorized) && db.State() == old(db.State())
    ensures SessionUser(jar.cookies, old(db.State())).Some? && req.body.None? ==>
              resp == Fail(500, AddFailed) && db.State() == old(db.State())
    ensures SessionUser(jar.cookies, old(db.State())).Some? && req.body.Some?
            && (!Js.Truthy(BodyField(req, "releaseId")) || !Js.Truthy(BodyField(req, "status")))
            ==> resp == Fail(400, FieldsRequired) && db.State() == old(db.State())
    ensures SessionUser(jar.cookies, old(db.State())).Some? && req.body.Some?
            && Js.Truthy(BodyField(req, "releaseId")) && Js.Truthy(BodyField(req, "status"))
            && !IsValidStatus(BodyField(req, "status"))
            ==> resp == Fail(400, InvalidStatus) && db.State() == old(db.State())
    ensures SessionUser(jar.cookies, old(db.State())).Some? && req.body.Some?
            && Js.Truthy(BodyField(req, "releaseId")) && IsValidStatus(BodyField(req, "status")) ==>
              var call := Store.AddToList(SessionUser(jar.cookies, old(db.State())).value.id,
                                          BodyField(req, "releaseId"), BodyField(req, "status").s);
              db.State() == old(db.State()).(listCalls := old(db.State()).listCalls + [call])
              && resp == (if succeeds(call) then Ok(StatusSaved(call.status)) else Fail(500, AddFailed))
  {
    var user := Auth.GetSession(jar.cookies, db.State());
    if user.None? {
      return Fail(401, Unauthorized);
    }
    if req.body.None? {
      return Fail(500, AddFailed);
    }
    var releaseId, status := BodyField(req, "releaseId"), BodyField(req, "status");
    if !Js.Truthy(releaseId) || !Js.Truthy(status) {
      return Fail(400, FieldsRequired);
    }
    if !IsValidStatus(status) {
      return Fail(400, InvalidStatus);
    }
    var call := Store.AddToList(user.value.id, releaseId, status.s);
    db.RecordListCall(call);
    resp := if succeeds(call) then Ok(StatusSaved(status.s)) else Fail(500, AddFailed);
  }

  /**
   * `DELETE /api/lists?releaseId=`: 401 without a session, 400 without the
   * parameter; otherwise one `removeFromList` call with `parseInt(releaseId)`.
   */
  method RemoveFromList(db: Store.Database, jar: Auth.CookieJar, req: Request, succeeds: Store.ListCall -> bool)
    returns (resp: Response)
    requires db.Valid()
    modifies db
    ensures db.Valid()
    ensures SessionUser(jar.cookies, old(db.State())).None? ==> resp == Fail(401, Unauthorized) && db.State() == old(db.State())
    ensures SessionUser(jar.cookies, old(db.State())).Some? && !Given(Query(req, "releaseId")) ==>
              resp == Fail(400, ReleaseIdRequired) && db.State() == old(db.State())
    ensures SessionUser(jar.cookies, old(db.State())).Some? && Given(Query(req, "releaseId")) ==>
              var call := Store.RemoveFromList(SessionUser(jar.cookies, old(db.State())).value.id,
                                               Js.ParseInt(Query(req, "releaseId").value));
              db.State() == old(db.State()).(listCalls := old(db.State()).listCalls + [call])
              && resp == (if succeeds(call) then Ok(Done) else Fail(500, RemoveFailed))
  {
    var user := Auth.GetSession(jar.cookies, db.State());
    if user.None? {
      return Fail(401, Unauthorized);
    }
    var releaseId := Query(req, "releaseId");
    if !Given(releaseId) {
      return Fail(400, ReleaseIdRequired);
    }
    var call := Store.RemoveFromList(user.value.id, Js.ParseInt(releaseId.value));
    db.RecordListCall(call);
    resp := if succeeds(call) then Ok(Done) else Fail(500, RemoveFailed);
  }

  /**
   * `GET /api/lists?releaseId=`: without a session the status is null and the
   * answer is a success; without the parameter it is 400; otherwise the status
   * `getUserListStatus` reads (`None` when it throws).
   */
  function ListStatusOf(cookies: map<string, Auth.Cookie>, t: Store.Tables, req: Request,
                        lookup: (int, Option<int>) -> Option<Js.Value>): (r: Response)
    ensures SessionUser(cookies, t).None? ==> r == Ok(ListStatus(Js.Null))
    ensures SessionUser(cookies, t).Some? && !Given(Query(req, "releaseId")) ==> r == Fail(400, ReleaseIdRequired)
    ensures SessionUser(cookies, t).Some? && Given(Query(req, "releaseId")) ==>
              var read := lookup(SessionUser(cookies, t).value.id, Js.ParseInt(Query(req, "releaseId").value));
              r == (if read.Some? then Ok(ListStatus(read.value)) else Fail(500, CheckFailed))
    ensures r.status == 200 || r.status == 400 || r == Fail(500, CheckFailed)
  {
    match SessionUser(cookies, t)
    case None => Ok(ListStatus(Js.Null))
    case Some(user) =>
      var releaseId := Query(req, "releaseId");
      if !Given(releaseId) then Fail(400, ReleaseIdRequired)
      else
        match lookup(user.id, Js.ParseInt(releaseId.value))
        case None => Fail(500, CheckFailed)
        case Some(status) => Ok(ListStatus(status))
  }
}
