/** The API client (src/services/api.ts): the request interceptor that
    attaches the stored session token, the endpoint each call targets, and
    the URL of an uploaded image. */
module Api {
  import opened Common

  const BaseUrl := "http://localhost:3000"

  /** The `localStorage` key of the session token. */
  const TokenKey := "nv_token"

  const AuthorizationName := "Authorization"
  const BearerPrefix := "Bearer "

  // ---------------------------------------------------------------------
  // The request interceptor

  /** The Authorization header the interceptor attaches for a stored token:
      one exactly when the token is truthy, that is present and not "". */
  function AuthorizationHeader(stored: Option<string>): (r: Option<string>)
    ensures r.Some? <==> stored.Some? && stored.value != ""
    ensures r.Some? ==> StripPrefix(r.value, BearerPrefix) == Some(stored.value)
  {
    if stored.Some? && stored.value != "" then
      StripPrefixAfter(BearerPrefix, stored.value);
      Some(BearerPrefix + stored.value)
    else None
  }

  /** The headers of a request after the interceptor has run. */
  function Intercepted(headers: map<string, string>, stored: Option<string>): (r: map<string, string>)
    ensures r.Keys == headers.Keys + (if AuthorizationHeader(stored).Some? then {AuthorizationName} else {})
    ensures forall name :: name in headers && name != AuthorizationName ==> name in r && r[name] == headers[name]
    ensures AuthorizationHeader(stored).Some? ==> r[AuthorizationName] == AuthorizationHeader(stored).value
    ensures AuthorizationHeader(stored).None? ==> r == headers
  {
    match AuthorizationHeader(stored)
    case Some(h) => headers[AuthorizationName := h]
    case None => headers
  }

  /** Running the interceptor a second time changes nothing. */
  lemma InterceptIdempotent(headers: map<string, string>, stored: Option<string>)
    ensures Intercepted(Intercepted(headers, stored), stored) == Intercepted(headers, stored)
  {
  }

  /** The token can be read back from the header the interceptor set. */
  lemma BearerRoundTrip(token: string)
    requires token != ""
    ensures var r := Intercepted(map[], Some(token));
      AuthorizationName in r && StripPrefix(r[AuthorizationName], BearerPrefix) == Some(token)
  {
  }

  /** The request configuration object the interceptor is handed. */
  class RequestConfig {
    var headers: map<string, string>

    constructor (headers: map<string, string>)
      ensures this.headers == headers
    {
      this.headers := headers;
    }
  }

  /** `api.interceptors.request.use(config => ...)`: reads the stored token
      and, when it is truthy, sets the Bearer Authorization header in place. */
  method Intercept(config: RequestConfig, storage: LocalStorage)
    modifies config
    ensures config.headers == Intercepted(old(config.headers), storage.GetItem(TokenKey))
  {
    var token := storage.GetItem(TokenKey);
    if token.Some? && token.value != "" {
      config.headers := config.headers[AuthorizationName := BearerPrefix + token.value];
    }
  }

  // ---------------------------------------------------------------------
  // Endpoints

  datatype Verb = Get | Post | Put | Patch | Delete

  datatype ParamValue = Str(s: string) | Num(n: int)

  /** One element of the reorder payload. */
  datatype OrderUpdate = OrderUpdate(id: string, order: int)

  /** The calls api.ts exports, with their arguments. */
  datatype ApiCall =
    | RegisterUser(form: seq<FormEntry>)
    | LoginUser(email: string, password: string)
    | GetMe
    | UpdateMe(form: seq<FormEntry>)
    | ForgotPassword(email: string)
    | ResetPassword(resetToken: string, password: string)
    | DiscoverUsers(params: map<string, ParamValue>)
    | GetUserProfile(userId: string)
    | GetAllNotes(params: map<string, ParamValue>)
    | GetMyNotes(params: map<string, ParamValue>)
    | GetSingleNote(id: string)
    | CreateNote(form: seq<FormEntry>)
    | EditNote(id: string, form: seq<FormEntry>)
    | DeleteNote(id: string)
    | ReorderNotes(updates: seq<OrderUpdate>)
    | DiscoverNotes(params: map<string, ParamValue>)
    | DownloadNote(id: string)

  datatype Endpoint = Endpoint(verb: Verb, path: string)

  const ApiRoot := "/api/v1/"

  /** The fixed part of a call's path: everything for a call without a path
      argument, the part before the argument otherwise. */
  function Route(call: ApiCall): (r: string)
    ensures ApiRoot <= r
  {
    match call
    case RegisterUser(_) => ApiRoot + "auth/register"
    case LoginUser(_, _) => ApiRoot + "auth/login"
    case GetMe => ApiRoot + "auth/me"
    case UpdateMe(_) => ApiRoot + "auth/me"
    case ForgotPassword(_) => ApiRoot + "auth/forgot-password"
    case ResetPassword(_, _) => ApiRoot + "auth/reset-password/"
    case DiscoverUsers(_) => ApiRoot + "users/discover"
    case GetUserProfile(_) => ApiRoot + "users/profile/"
    case GetAllNotes(_) => ApiRoot + "notes"
    case GetMyNotes(_) => ApiRoot + "notes/my"
    case GetSingleNote(_) => ApiRoot + "notes/"
    case CreateNote(_) => ApiRoot + "notes"
    case EditNote(_, _) => ApiRoot + "notes/"
    case DeleteNote(_) => ApiRoot + "notes/"
    case ReorderNotes(_) => ApiRoot + "notes/reorder"
    case DiscoverNotes(_) => ApiRoot + "notes/discover"
    case DownloadNote(_) => ApiRoot + "notes/download/"
  }

  /** The argument a call places in its path, if any. */
  function PathArgument(call: ApiCall): Option<string> {
    match call
    case ResetPassword(t, _) => Some(t)
    case GetUserProfile(u) => Some(u)
    case GetSingleNote(id) => Some(id)
    case EditNote(id, _) => Some(id)
    case DeleteNote(id) => Some(id)
    case DownloadNote(id) => Some(id)
    case _ => None
  }

  function VerbOf(call: ApiCall): Verb {
    match call
    case RegisterUser(_) => Post
    case LoginUser(_, _) => Post
    case ForgotPassword(_) => Post
    case ResetPassword(_, _) => Post
    case CreateNote(_) => Post
    case UpdateMe(_) => Put
    case EditNote(_, _) => Put
    case DeleteNote(_) => Delete
    case ReorderNotes(_) => Patch
    case _ => Get
  }

  /** The method and path (below the base URL) a call requests. */
  function EndpointOf(call: ApiCall): (r: Endpoint)
    ensures r.verb == VerbOf(call)
    ensures ApiRoot <= r.path
    ensures StripPrefix(r.path, Route(call)) == Some(if PathArgument(call).Some? then PathArgument(call).value else "")
  {
    var arg := if PathArgument(call).Some? then PathArgument(call).value else "";
    StripPrefixAfter(Route(call), arg);
    Endpoint(VerbOf(call), Route(call) + arg)
  }

  /** Two calls of the same kind reach the same endpoint only with the same
      path argument: an id or token is never lost in the path. */
  lemma EndpointKeepsArgument(a: ApiCall, b: ApiCall)
    requires Route(a) == Route(b) && PathArgument(a).Some? && PathArgument(b).Some?
    requires EndpointOf(a).path == EndpointOf(b).path
    ensures PathArgument(a) == PathArgument(b)
  {
  }

  /** `getSingleNote(id)` requests `GET /api/v1/notes/<id>`. */
  lemma SingleNoteEndpoint(id: string)
    ensures EndpointOf(GetSingleNote(id)) == Endpoint(Get, "/api/v1/notes/" + id)
  {
  }

  /** `resetPassword(token, p)` posts to `/api/v1/auth/reset-password/<token>`. */
  lemma ResetPasswordEndpoint(token: string, password: string)
    ensures EndpointOf(ResetPassword(token, password)) == Endpoint(Post, "/api/v1/auth/reset-password/" + token)
  {
    ResetPasswordRoute();
    assert EndpointOf(ResetPassword(token, password)).path == Route(ResetPassword(token, password)) + token;
  }

  lemma ResetPasswordRoute()
    ensures ApiRoot + "auth/reset-password/" == "/api/v1/auth/reset-password/"
  {
  }

  // ---------------------------------------------------------------------
  // Uploaded images

  const UploadsRoot := BaseUrl + "/uploads/"

  /** `getImageUrl(filename)`: "" for no file, the uploads URL otherwise. */
  function GetImageUrl(filename: string): (url: string)
    ensures filename == "" <==> url == ""
    ensures filename != "" ==> StripPrefix(url, UploadsRoot) == Some(filename)
  {
    if filename == "" then ""
    else
      StripPrefixAfter(UploadsRoot, filename);
      UploadsRoot + filename
  }

  /** Different files get different URLs, and the file name is the URL's suffix. */
  lemma ImageUrlInjective(a: string, b: string)
    requires GetImageUrl(a) == GetImageUrl(b)
    ensures a == b
  {
  }

  lemma ImageUrlSuffix(filename: string)
    ensures var url := GetImageUrl(filename);
      |filename| <= |url| && url[|url| - |filename|..] == filename
  {
  }
}
