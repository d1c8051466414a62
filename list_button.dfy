/**
 * `components/list-button.tsx`: the release page's list menu. The button keeps
 * the user's list status for the release; choosing the current status removes
 * the release from the list, choosing another one sets it. The menu's requests
 * go to `/api/lists`.
 */
module ListButton {
  import opened Wrappers
  import Js
  import Http
  import Client
  import ListRoutes

  /** An entry of `LIST_STATUSES` (its colour is presentation only). */
  datatype MenuItem = MenuItem(value: string, caption: string)

  const ListStatuses: seq<MenuItem> := [
    MenuItem("watching", "Смотрю"), MenuItem("completed", "Просмотренно"), MenuItem("on_hold", "Отложенно"),
    MenuItem("dropped", "Брошено"), MenuItem("planned", "Запланированно")]

  const DefaultText: string := "Добавить в список"

  /** The status after choosing `chosen`: the same one again clears it. */
  function StatusAfter(current: Option<string>, chosen: string): Option<string> {
    if current == Some(chosen) then None else Some(chosen)
  }

  /** The request choosing `chosen` sends: `DELETE` for the current status, `POST {releaseId, status}` otherwise. */
  function RequestFor(releaseId: int, current: Option<string>, chosen: string): Client.Fetch {
    if current == Some(chosen) then Client.WithReleaseQuery("DELETE", "/api/lists", releaseId)
    else Client.Fetch("POST", "/api/lists",
                      Http.Request(Some(map["releaseId" := Js.Num(releaseId), "status" := Js.Str(chosen)]), map[]))
  }

  /**
   * Choosing a status twice from none sets it and then clears it, with a `POST`
   * and then a `DELETE` for the same release.
   */
  lemma SameStatusTwice(releaseId: int, s: string)
    ensures StatusAfter(None, s) == Some(s) && StatusAfter(StatusAfter(None, s), s) == None
    ensures RequestFor(releaseId, None, s).verb == "POST"
    ensures RequestFor(releaseId, StatusAfter(None, s), s).verb == "DELETE"
  {
  }

  /**
   * Choosing another status sends a body from which `POST /api/lists` reads this
   * release and, for a menu entry, a status it accepts.
   */
  lemma PostRequestAccepted(releaseId: int, current: Option<string>, chosen: string)
    requires current != Some(chosen)
    ensures var req := RequestFor(releaseId, current, chosen).req;
            Http.BodyField(req, "status") == Js.Str(chosen)
            && Http.IntParam(Http.BodyField(req, "releaseId")) == Http.IntVal(releaseId)
            && (chosen in ListRoutes.ValidStatuses ==> ListRoutes.IsValidStatus(Http.BodyField(req, "status")))
  {
  }

  /** Choosing the current status sends a query from which `DELETE /api/lists` reads this release. */
  lemma DeleteRequestNamesRelease(releaseId: int, chosen: string)
    ensures var req := RequestFor(releaseId, Some(chosen), chosen).req;
            Http.Given(Http.Query(req, "releaseId")) && Js.ParseInt(Http.Query(req, "releaseId").value) == Some(releaseId)
  {
    Client.ReleaseQueryParses("DELETE", "/api/lists", releaseId);
  }

  /** `LIST_STATUSES.find((s) => s.value === currentStatus)?.label`. */
  function StatusLabel(current: Option<string>): (caption: Option<string>)
    ensures caption.Some? <==> current.Some? && current.value in ListRoutes.ValidStatuses
    ensures caption.Some? ==> exists i :: 0 <= i < |ListStatuses| && ListStatuses[i] == MenuItem(current.value, caption.value)
  {
    if current.None? then None else LabelOf(ListStatuses, current.value)
  }

  function LabelOf(items: seq<MenuItem>, value: string): (caption: Option<string>)
    ensures caption.Some? <==> exists i :: 0 <= i < |items| && items[i].value == value
    ensures caption.Some? ==> exists i :: 0 <= i < |items| && items[i] == MenuItem(value, caption.value)
  {
    if items == [] then None
    else if items[0].value == value then Some(items[0].caption)
    else
      var rest := LabelOf(items[1..], value);
      assert forall i :: 0 <= i < |items| - 1 ==> items[1..][i] == items[i + 1];
      rest
  }

  /** The menu's values are exactly the statuses the lists endpoint accepts. */
  lemma MenuValuesAreValidStatuses()
    ensures forall v :: (exists i :: 0 <= i < |ListStatuses| && ListStatuses[i].value == v) <==> v in ListRoutes.ValidStatuses
  {
    forall v ensures (exists i :: 0 <= i < |ListStatuses| && ListStatuses[i].value == v) <==> v in ListRoutes.ValidStatuses {
      if v in ListRoutes.ValidStatuses {
        var k :| 0 <= k < 5 && ListRoutes.ValidStatuses[k] == v;
        assert ListStatuses[k].value == v;
      }
    }
  }

  /** The button's text: the status's caption, or the default text. */
  function ButtonText(current: Option<string>): (text: string)
    ensures StatusLabel(current).Some? ==> text == StatusLabel(current).value
    ensures StatusLabel(current).None? ==> text == DefaultText
  {
    match StatusLabel(current)
    case Some(caption) => if caption != "" then caption else DefaultText
    case None => DefaultText
  }

  /** `{currentStatus && ...}`: the "remove" entry is shown for a non-empty status. */
  predicate RemoveItemShown(current: Option<string>) {
    current.Some? && current.value != ""
  }

  /** The "remove" entry chooses the current status again, which sends `DELETE` and clears it. */
  lemma RemoveItemRemoves(releaseId: int, current: Option<string>)
    requires RemoveItemShown(current)
    ensures StatusAfter(current, current.value) == None
    ensures RequestFor(releaseId, current, current.value) == Client.WithReleaseQuery("DELETE", "/api/lists", releaseId)
  {
  }

  class ListButton {
    const releaseId: int
    const userId: Option<int>
    /** `currentStatus`. */
    var currentStatus: Option<string>
    /** `loading`: the button is disabled while a request is awaited. */
    var loading: bool
    /** The requests sent so far, oldest first. */
    var sent: seq<Client.Fetch>
    /** The last `router.push`. */
    var navigatedTo: Option<string>

    constructor(releaseId: int, userId: Option<int>)
      ensures this.releaseId == releaseId && this.userId == userId
      ensures currentStatus == None && !loading && sent == [] && navigatedTo == None
    {
      this.releaseId := releaseId;
      this.userId := userId;
      currentStatus := None;
      loading := false;
      sent := [];
      navigatedTo := None;
    }

    /**
     * The mount effect: a signed-in user's status is fetched; an answer sets
     * `data.status` (absent in an error answer), a throw keeps the status.
     */
    method CheckStatus(outcome: Client.Outcome, status: Option<string>)
      modifies this
      ensures !Client.SignedIn(userId) ==> sent == old(sent) && currentStatus == old(currentStatus)
      ensures Client.SignedIn(userId) ==>
                sent == old(sent) + [Client.WithReleaseQuery("GET", "/api/lists", releaseId)]
                && currentStatus == (if outcome.Threw? then old(currentStatus) else status)
      ensures loading == old(loading) && navigatedTo == old(navigatedTo)
    {
      if !Client.SignedIn(userId) {
        return;
      }
      sent := sent + [Client.WithReleaseQuery("GET", "/api/lists", releaseId)];
      if outcome.Answered? {
        currentStatus := status;
      }
    }

    /**
     * `handleStatusChange(status)`: without a user, a redirect home and nothing
     * else; otherwise the request `RequestFor` names, and, unless it throws, the
     * status `StatusAfter` names, whatever the answer's HTTP status.
     */
    method HandleStatusChange(status: string, outcome: Client.Outcome)
      modifies this
      ensures !Client.SignedIn(userId) ==>
                navigatedTo == Some("/") && sent == old(sent) && currentStatus == old(currentStatus) && loading == old(loading)
      ensures Client.SignedIn(userId) ==>
                sent == old(sent) + [RequestFor(releaseId, old(currentStatus), status)]
                && currentStatus == (if outcome.Threw? then old(currentStatus) else StatusAfter(old(currentStatus), status))
                && !loading && navigatedTo == old(navigatedTo)
    {
      if !Client.SignedIn(userId) {
        navigatedTo := Some("/");
        return;
      }
      loading := true;
      if currentStatus == Some(status) {
        sent := sent + [Client.WithReleaseQuery("DELETE", "/api/lists", releaseId)];
        if outcome.Answered? {
          currentStatus := None;
        }
      } else {
        sent := sent + [Client.Fetch("POST", "/api/lists",
                          Http.Request(Some(map["releaseId" := Js.Num(releaseId), "status" := Js.Str(status)]), map[]))];
        if outcome.Answered? {
          currentStatus := Some(status);
        }
      }
      loading := false;
    }
  }
}
