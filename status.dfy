/** `atomemo auth status` of src/commands/auth/status.ts: with a stored access token, fetch the
    session it belongs to and show it. */
module AuthStatus {
  import opened Wrappers
  import Http
  import ConfigStore
  import opened Command

  const NotAuthenticatedHint: string := "Your device has not been authenticated yet. Please execute `atomemo auth login`."
  const EndpointRequired: string := "Auth endpoint is required"
  const FailurePrefix: string := "\U{2717} Failed to fetch session: "
  const SessionPath: string := "/v1/auth/get-session"

  /** The session document: the user's name and email, and when the session was updated and expires. */
  datatype Session = Session(name: string, email: string, updatedAt: string, expiresAt: string)

  /** `fetchSession` once `fetch` has settled: `response` is `Err` when `fetch` rejected, and its
      body is `Err` when it does not decode to a session. */
  function FetchSession(response: Result<Http.Response<Result<Session>>>): (r: Result<Session>)
    ensures r.Ok? <==> response.Ok? && Http.IsOk(response.value) && response.value.body.Ok?
    ensures r.Ok? ==> r.value == response.value.body.value
    ensures response.Err? ==> r == Err(response.message)
    ensures response.Ok? && !Http.IsOk(response.value) ==>
      r == Err(Http.StatusFailure(response.value.status, response.value.statusText))
  {
    var resp :- response;
    if !Http.IsOk(resp) then Err(Http.StatusFailure(resp.status, resp.statusText))
    else resp.body
  }

  /** The request `fetchSession` sends. */
  function SessionRequest(endpoint: string, accessToken: string): Http.Request {
    Http.Get(endpoint + SessionPath, accessToken)
  }

  /** What `this.log(caption, value)` prints. */
  function Shown(caption: string, value: string): string {
    caption + " " + value
  }

  /** The report of an authenticated session; `formatDate` stands for `formatDate`. */
  function SessionLog(s: Session, formatDate: string -> string): seq<string> {
    [ "\U{2713} Authenticated\n",
      Shown("Name    : ", s.name),
      Shown("Email   : ", s.email),
      Shown("Updated : ", formatDate(s.updatedAt)),
      Shown("Expires : ", formatDate(s.expiresAt)) ]
  }

  /** How `run()` ends and which request it sent. */
  datatype StatusRun = StatusRun(outcome: Outcome, request: Option<Http.Request>)

  /** `run()` after `configStore.load()` settled with `loaded`. */
  function Status(loaded: Result<ConfigStore.Config>, response: Result<Http.Response<Result<Session>>>,
                  formatDate: string -> string): (r: StatusRun)
    ensures loaded.Err? ==> r == StatusRun(Threw(loaded.message), None)
    ensures loaded.Ok? && !Truthy(ConfigStore.AccessToken(loaded.value)) ==>
      r == StatusRun(Completed([NotAuthenticatedHint]), None)
    ensures loaded.Ok? && Truthy(ConfigStore.AccessToken(loaded.value)) && !Truthy(ConfigStore.Endpoint(loaded.value)) ==>
      r == StatusRun(Threw(EndpointRequired), None)
    ensures r.request.Some? <==>
      loaded.Ok? && Truthy(ConfigStore.AccessToken(loaded.value)) && Truthy(ConfigStore.Endpoint(loaded.value))
    ensures r.request.Some? ==>
      r.request.value == SessionRequest(ConfigStore.Endpoint(loaded.value).value, ConfigStore.AccessToken(loaded.value).value)
      && match FetchSession(response)
         case Ok(session) => r.outcome == Completed(SessionLog(session, formatDate))
         case Err(message) => r.outcome == Exited(1, [FailurePrefix + message])
  {
    match loaded
    case Err(message) => StatusRun(Threw(message), None)
    case Ok(config) =>
      var token, endpoint := ConfigStore.AccessToken(config), ConfigStore.Endpoint(config);
      if !Truthy(token) then StatusRun(Completed([NotAuthenticatedHint]), None)
      else if !Truthy(endpoint) then StatusRun(Threw(EndpointRequired), None)
      else
        var request := Some(SessionRequest(endpoint.value, token.value));
        match FetchSession(response)
        case Ok(session) => StatusRun(Completed(SessionLog(session, formatDate)), request)
        case Err(message) => StatusRun(Exited(1, [FailurePrefix + message]), request)
  }

  /** An invalid or expired token is reported and the command exits with code 1. */
  lemma RejectedTokenExits(config: ConfigStore.Config, status: nat, statusText: string,
                           body: Result<Session>, formatDate: string -> string)
    requires Truthy(ConfigStore.AccessToken(config)) && Truthy(ConfigStore.Endpoint(config))
    requires status == 401
    ensures Status(Ok(config), Ok(Http.Response(status, statusText, body)), formatDate).outcome
         == Exited(1, [FailurePrefix + Http.InvalidToken])
  {
  }

  /** A device without a token is told to log in, and nothing is fetched. */
  lemma NoTokenNoRequest(config: ConfigStore.Config, response: Result<Http.Response<Result<Session>>>,
                         formatDate: string -> string)
    requires !Truthy(ConfigStore.AccessToken(config))
    ensures Status(Ok(config), response, formatDate) == StatusRun(Completed([NotAuthenticatedHint]), None)
  {
  }

  /** `run()` against the configuration store. */
  method Run(store: ConfigStore.Store, response: Result<Http.Response<Result<Session>>>, formatDate: string -> string)
    returns (r: StatusRun)
    modifies store
    ensures r == Status(ConfigStore.LoadResult(old(store.file), store.nodeEnv), response, formatDate)
    ensures store.file == ConfigStore.AfterLoad(old(store.file), store.nodeEnv)
  {
    var loaded := store.Load();
    r := Status(loaded, response, formatDate);
  }
}
