/**
 * `components/favorite-button.tsx`: the release page's heart button. It keeps
 * whether the release is among the user's favourites and flips it with a
 * request to `/api/favorites`.
 */
module FavoriteButton {
  import opened Wrappers
  import Js
  import Http
  import Client

  const AddedText: string := "В избранном"
  const AddText: string := "В избранное"

  /** The request a toggle sends: `DELETE` for a favourite, `POST {releaseId}` otherwise. */
  function ToggleRequest(releaseId: int, isFavorite: bool): Client.Fetch {
    if isFavorite then Client.WithReleaseQuery("DELETE", "/api/favorites", releaseId)
    else Client.Fetch("POST", "/api/favorites", Http.Request(Some(map["releaseId" := Js.Num(releaseId)]), map[]))
  }

  /** Both requests name this release to the favourites endpoint. */
  lemma ToggleRequestNamesRelease(releaseId: int, isFavorite: bool)
    ensures var req := ToggleRequest(releaseId, isFavorite).req;
            if isFavorite then Js.ParseInt(Http.Query(req, "releaseId").value) == Some(releaseId)
            else Http.IntParam(Http.BodyField(req, "releaseId")) == Http.IntVal(releaseId)
  {
    Client.ReleaseQueryParses("DELETE", "/api/favorites", releaseId);
  }

  /** The button's text. */
  function ButtonText(isFavorite: bool): (text: string)
    ensures text == AddedText <==> isFavorite
    ensures !isFavorite ==> text == AddText
  {
    if isFavorite then AddedText else AddText
  }

  class FavoriteButton {
    const releaseId: int
    const userId: Option<int>
    /** `isFavorite`. */
    var isFavorite: bool
    /** `loading`: the button is disabled while a request is awaited. */
    var loading: bool
    /** The requests sent so far, oldest first. */
    var sent: seq<Client.Fetch>
    /** The last `router.push`. */
    var navigatedTo: Option<string>

    constructor(releaseId: int, userId: Option<int>)
      ensures this.releaseId == releaseId && this.userId == userId
      ensures !isFavorite && !loading && sent == [] && navigatedTo == None
    {
      this.releaseId := releaseId;
      this.userId := userId;
      isFavorite := false;
      loading := false;
      sent := [];
      navigatedTo := None;
    }

    /** The mount effect: a signed-in user's flag is fetched; a throw keeps the flag. */
    method CheckFavorite(outcome: Client.Outcome, flag: bool)
      modifies this
      ensures !Client.SignedIn(userId) ==> sent == old(sent) && isFavorite == old(isFavorite)
      ensures Client.SignedIn(userId) ==>
                sent == old(sent) + [Client.WithReleaseQuery("GET", "/api/favorites", releaseId)]
                && isFavorite == (if outcome.Threw? then old(isFavorite) else flag)
      ensures loading == old(loading) && navigatedTo == old(navigatedTo)
    {
      if !Client.SignedIn(userId) {
        return;
      }
      sent := sent + [Client.WithReleaseQuery("GET", "/api/favorites", releaseId)];
      if outcome.Answered? {
        isFavorite := flag;
      }
    }

    /**
     * `toggleFavorite`: without a user, to the login page and nothing else;
     * otherwise the request `ToggleRequest` names and, unless it throws, the
     * flag flipped, whatever the answer's HTTP status.
     */
    method ToggleFavorite(outcome: Client.Outcome)
      modifies this
      ensures !Client.SignedIn(userId) ==>
                navigatedTo == Some("/login") && sent == old(sent) && isFavorite == old(isFavorite) && loading == old(loading)
      ensures Client.SignedIn(userId) ==>
                sent == old(sent) + [ToggleRequest(releaseId, old(isFavorite))]
                && isFavorite == (if outcome.Threw? then old(isFavorite) else !old(isFavorite))
                && !loading && navigatedTo == old(navigatedTo)
    {
      if !Client.SignedIn(userId) {
        navigatedTo := Some("/login");
        return;
      }
      loading := true;
      if isFavorite {
        sent := sent + [Client.WithReleaseQuery("DELETE", "/api/favorites", releaseId)];
        if outcome.Answered? {
          isFavorite := false;
        }
      } else {
        sent := sent + [Client.Fetch("POST", "/api/favorites", Http.Request(Some(map["releaseId" := Js.Num(releaseId)]), map[]))];
        if outcome.Answered? {
          isFavorite := true;
        }
      }
      loading := false;
    }
  }

  /**
   * Two answered toggles by a signed-in user restore the flag, after a `POST`
   * and a `DELETE` (in the order the flag dictates) for the same release.
   */
  method ToggleTwice(b: FavoriteButton, first: int, second: int)
    requires Client.SignedIn(b.userId)
    modifies b
    ensures b.isFavorite == old(b.isFavorite)
    ensures b.sent == old(b.sent) + [ToggleRequest(b.releaseId, old(b.isFavorite)), ToggleRequest(b.releaseId, !old(b.isFavorite))]
  {
    b.ToggleFavorite(Client.Answered(first));
    b.ToggleFavorite(Client.Answered(second));
  }
}
