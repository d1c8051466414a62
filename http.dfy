/**
 * Requests and responses of the route handlers, and how a JSON value is bound
 * to an SQL parameter.
 */
module Http {
  import opened Wrappers
  import Js
  import Store

  /** The JSON bodies `NextResponse.json` sends. */
  datatype Payload =
    | ErrorMessage(error: string)                                      // { error }
    | Done                                                             // { success: true }
    | SignedIn(id: int, email: string, username: string)               // { success: true, user: { id, email, username } }
    | Profile(id: int, email: string, username: string, avatarUrl: Option<string>)
                                                                       // { success: true, user: { ..., avatar_url } }
    | FavoriteFlag(isFavorite: bool)                                   // { isFavorite }
    | ListStatus(status: Js.Value)                                     // { status }
    | StatusSaved(savedStatus: string)                                 // { success: true, status }
    | Favorites(favorites: seq<Store.Release>)                         // { favorites }
    | Releases(releases: seq<Store.Release>)                           // { releases }
    | ReleaseSaved(release: Option<Store.Release>)                     // { success: true, release }
    | Episodes(episodes: seq<Store.Episode>)                           // { episodes }
    | EpisodeSaved(episode: Option<Store.Episode>)                     // { success: true, episode }

  datatype Response = Response(status: int, payload: Payload)

  function Ok(p: Payload): Response { Response(200, p) }

  function Fail(status: int, message: string): Response { Response(status, ErrorMessage(message)) }

  /**
   * A request: its decoded JSON object body (`None` when `request.json()`
   * throws) and its query string.
   */
  datatype Request = Request(body: Option<map<string, Js.Value>>, query: map<string, string>)

  /** A field of the decoded body, `undefined` when absent (only read once the body decoded). */
  function BodyField(req: Request, key: string): Js.Value {
    if req.body.None? then Js.Undefined else Js.Field(req.body.value, key)
  }

  /** `searchParams.get(key)`: `None` is null. */
  function Query(req: Request, key: string): Option<string> {
    if key in req.query then Some(req.query[key]) else None
  }

  /** `!searchParams.get(key)` is false: the parameter is present and not empty. */
  predicate Given(q: Option<string>) {
    q.Some? && q.value != ""
  }

  /** How an SQL integer parameter receives a value: NULL, a number, or an error. */
  datatype IntArg = IntNull | IntVal(n: int) | IntBad

  /** The white space PostgreSQL's integer input skips around the number: C's `isspace`. */
  predicate PgSpace(c: char) {
    c == ' ' || c == '\t' || c == '\n' || c == '\r' || c == '\U{B}' || c == '\U{C}'
  }

  /** The text without its leading and trailing `PgSpace` characters. */
  function PgTrim(s: string): (r: string)
    ensures r == [] || (!PgSpace(r[0]) && !PgSpace(r[|r| - 1]))
    decreases |s|
  {
    if s != [] && PgSpace(s[0]) then PgTrim(s[1..])
    else if s != [] && PgSpace(s[|s| - 1]) then PgTrim(s[..|s| - 1])
    else s
  }

  /** Surrounding white space is dropped and the text between is kept. */
  lemma {:induction false} PgTrimAround(pre: string, s: string, post: string)
    requires s != [] && !PgSpace(s[0]) && !PgSpace(s[|s| - 1])
    requires forall i :: 0 <= i < |pre| ==> PgSpace(pre[i])
    requires forall i :: 0 <= i < |post| ==> PgSpace(post[i])
    ensures PgTrim(pre + s + post) == s
    decreases |pre| + |post|
  {
    if pre != [] {
      assert (pre + s + post)[1..] == pre[1..] + s + post;
      PgTrimAround(pre[1..], s, post);
    } else if post != [] {
      var w := pre + s + post;
      assert w == s + post && w[0] == s[0] && w[|w| - 1] == post[|post| - 1];
      assert w[..|w| - 1] == pre + s + post[..|post| - 1];
      PgTrimAround(pre, s, post[..|post| - 1]);
    } else {
      assert pre + s + post == s;
    }
  }

  /**
   * PostgreSQL's integer input syntax: optional white space, an optional sign,
   * at least one digit, optional white space.
   */
  function PgIntText(s: string): Option<int> {
    PgSignedDigits(PgTrim(s))
  }

  /** An optional sign and at least one digit. */
  function PgSignedDigits(s: string): Option<int> {
    if |s| > 1 && (s[0] == '-' || s[0] == '+') && Js.AllDigits(s[1..]) then
      var m: int := Js.DigitsValue(s[1..]);
      Some(if s[0] == '-' then -m else m)
    else if |s| > 0 && Js.AllDigits(s) then Some(Js.DigitsValue(s))
    else None
  }

  /** A JSON value bound to an integer column. */
  function IntParam(v: Js.Value): IntArg {
    match v
    case Undefined => IntNull
    case Null => IntNull
    case Num(n) => IntVal(n)
    case Str(s) => if PgIntText(s).Some? then IntVal(PgIntText(s).value) else IntBad
    case _ => IntBad
  }

  /** A JSON value bound to a text column; arrays and null are not accepted. */
  function TextParam(v: Js.Value): (r: Option<string>)
    ensures v.Str? ==> r == Some(v.s)
    ensures v.Null? || v.Undefined? || v.StrList? ==> r.None?
  {
    match v
    case Str(s) => Some(s)
    case Num(n) => Some(Js.IntToString(n))
    case Bool(b) => Some(if b then "true" else "false")
    case _ => None
  }

  /**
   * A JSON value bound to a text parameter before any row is touched:
   * `Some(None)` is NULL (null or undefined), which a NOT NULL column refuses
   * only when a row is written; `None` is a value the parameter itself refuses.
   */
  function NullableTextParam(v: Js.Value): (r: Option<Option<string>>)
    ensures v.Null? || v.Undefined? ==> r == Some(None)
    ensures r == Some(None) ==> v.Null? || v.Undefined?
    ensures !(v.Null? || v.Undefined?) ==> r == (if TextParam(v).Some? then Some(TextParam(v)) else None)
  {
    if v.Null? || v.Undefined? then Some(None)
    else match TextParam(v)
      case None => None
      case Some(s) => Some(Some(s))
  }

  /** A JSON value bound to a text-array column. */
  function TextArrayParam(v: Js.Value): Option<seq<string>> {
    if v.StrList? then Some(v.items) else None
  }

  /** The number of a canonical decimal string goes through `PgIntText` unchanged. */
  lemma PgIntTextOfIntToString(n: int)
    ensures PgIntText(Js.IntToString(n)) == Some(n)
  {
    var s := Js.IntToString(n);
    assert Js.IsDigit(s[|s| - 1]);
    PgTrimAround([], s, []);
    assert [] + s + [] == s;
    if n < 0 {
      assert s[1..] == Js.NatToString(-n);
      Js.DigitsValueOfNatToString(-n);
    } else {
      Js.DigitsValueOfNatToString(n);
    }
  }

  lemma IntParamOfNumber(n: int)
    ensures IntParam(Js.Num(n)) == IntVal(n)
    ensures IntParam(Js.Str(Js.IntToString(n))) == IntVal(n)
  {
    PgIntTextOfIntToString(n);
  }

  /** Decimal text with white space around it binds as its number: `" 5 "` is 5. */
  lemma IntParamOfSpacedText(pre: string, n: int, post: string)
    requires forall i :: 0 <= i < |pre| ==> PgSpace(pre[i])
    requires forall i :: 0 <= i < |post| ==> PgSpace(post[i])
    ensures IntParam(Js.Str(pre + Js.IntToString(n) + post)) == IntVal(n)
  {
    var s := Js.IntToString(n);
    assert Js.IsDigit(s[|s| - 1]);
    PgTrimAround(pre, s, post);
    PgTrimAround([], s, []);
    assert [] + s + [] == s;
    PgIntTextOfIntToString(n);
  }
}
