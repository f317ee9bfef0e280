/** The client side of the OAuth 2.0 Device Authorization Grant (RFC 8628) in
    src/commands/auth/login.ts: the token request of section 3.4 of RFC 8628, polled under
    the error handling of section 3.5, with a polling interval that starts at 5 seconds. */
module DeviceLogin {
  import opened Wrappers
  import ConfigStore

  const InitialInterval: nat := 5
  const SlowDownStep: nat := 5
  const ClientId: string := "atomemo_plugin_cli"
  const GrantType: string := "urn:ietf:params:oauth:grant-type:device_code"

  /** The body of one token response. `error` is undefined or a string; the empty string is
      falsy and counts as success. `fields` holds the rest of the payload, `access_token` among them. */
  datatype TokenResponse = TokenResponse(error: Option<string>, errorDescription: Option<string>, fields: map<string, string>)

  /** The JSON body of one token request. */
  datatype TokenRequest = TokenRequest(grantType: string, clientId: string, deviceCode: string)

  /** The device authorization response: obtained once, before polling starts. */
  datatype DeviceAuthorization = DeviceAuthorization(deviceCode: string, userCode: string, verificationUri: string, verificationUriComplete: string)

  /** `ExitError`: the exit code the command ends with, and the error's message. */
  datatype ExitError = ExitError(code: int, message: string)

  /** How one token response is handled. */
  datatype Step = Pending | SlowDown | Resolve(payload: TokenResponse) | Reject(error: ExitError)

  /** How polling ends, over a finite script of responses: the promise resolves or rejects,
      or the script ran out while another poll was scheduled. */
  datatype PollOutcome = Resolved(payload: TokenResponse) | Rejected(error: ExitError) | StillPolling

  /** One run of the poll loop: the delay in seconds before each request made, the interval
      left in `pollingInterval`, and the outcome. */
  datatype PollRun = PollRun(waits: seq<nat>, finalInterval: nat, outcome: PollOutcome)

  /** The classification of a token response by its `error` field. */
  function Classify(r: TokenResponse): (s: Step)
    ensures s.Resolve? <==> !Truthy(r.error)
    ensures s.Resolve? ==> s.payload == r
    ensures s.Reject? ==> (s.error.code == 0 <==> r.error in {Some("access_denied"), Some("expired_token")})
    ensures s.Reject? && s.error.code != 0 ==> s.error.code == 1 && s.error.message == r.errorDescription.GetOr("")
    ensures s.Pending? <==> r.error == Some("authorization_pending")
    ensures s.SlowDown? <==> r.error == Some("slow_down")
  {
    if !Truthy(r.error) then Resolve(r)
    else match r.error.value
      case "authorization_pending" => Pending
      case "slow_down" => SlowDown
      case "access_denied" => Reject(ExitError(0, "access_denied"))
      case "expired_token" => Reject(ExitError(0, "expired_token"))
      case _ => Reject(ExitError(1, r.errorDescription.GetOr("")))
  }

  predicate IsTerminal(r: TokenResponse) {
    var s := Classify(r); s.Resolve? || s.Reject?
  }

  /** The outcome a terminal response ends polling with. */
  function Terminal(r: TokenResponse): PollOutcome
    requires IsTerminal(r)
  {
    match Classify(r)
    case Resolve(p) => Resolved(p)
    case Reject(e) => Rejected(e)
  }

  /** The poll loop over a script of responses, a request having been scheduled after
      `interval` seconds: each response answers one request. */
  function Poll(interval: nat, responses: seq<TokenResponse>): (run: PollRun)
    ensures |run.waits| <= |responses|
    ensures responses != [] ==> |run.waits| >= 1 && run.waits[0] == interval
    ensures run.finalInterval >= interval
    decreases |responses|
  {
    if responses == [] then PollRun([], interval, StillPolling)
    else
      match Classify(responses[0])
      case Pending =>
        var rest := Poll(interval, responses[1..]);
        PollRun([interval] + rest.waits, rest.finalInterval, rest.outcome)
      case SlowDown =>
        var rest := Poll(interval + SlowDownStep, responses[1..]);
        PollRun([interval] + rest.waits, rest.finalInterval, rest.outcome)
      case Resolve(p) => PollRun([interval], interval, Resolved(p))
      case Reject(e) => PollRun([interval], interval, Rejected(e))
  }

  function CountSlowDowns(responses: seq<TokenResponse>): nat {
    if responses == [] then 0
    else (if Classify(responses[0]).SlowDown? then 1 else 0) + CountSlowDowns(responses[1..])
  }

  /** The number of requests is the index of the first terminal response plus one; with no
      terminal response every response is consumed and polling goes on. */
  lemma {:induction false} PollStopsAtFirstTerminal(interval: nat, responses: seq<TokenResponse>)
    ensures var run := Poll(interval, responses);
      && |run.waits| <= |responses|
      && (forall j :: 0 <= j < |run.waits| - 1 ==> !IsTerminal(responses[j]))
      && (run.outcome == StillPolling <==> |run.waits| == |responses| && forall j :: 0 <= j < |responses| ==> !IsTerminal(responses[j]))
      && (run.outcome != StillPolling ==> |run.waits| >= 1 && IsTerminal(responses[|run.waits| - 1]) && run.outcome == Terminal(responses[|run.waits| - 1]))
    decreases |responses|
  {
    if responses != [] {
      var s := Classify(responses[0]);
      if s.Pending? {
        PollStopsAtFirstTerminal(interval, responses[1..]);
      } else if s.SlowDown? {
        PollStopsAtFirstTerminal(interval + SlowDownStep, responses[1..]);
      }
    }
  }

  /** The delay before each request is the starting interval plus 5 seconds for every
      `slow_down` answered before it; the interval left over counts every `slow_down` seen. */
  lemma {:induction false} PollIntervals(interval: nat, responses: seq<TokenResponse>)
    ensures var run := Poll(interval, responses);
      && (forall j :: 0 <= j < |run.waits| ==> run.waits[j] == interval + SlowDownStep * CountSlowDowns(responses[..j]))
      && run.finalInterval == interval + SlowDownStep * CountSlowDowns(responses[..|run.waits|])
    decreases |responses|
  {
    var run := Poll(interval, responses);
    if responses != [] {
      var s := Classify(responses[0]);
      if s.Pending? || s.SlowDown? {
        var next := if s.SlowDown? then interval + SlowDownStep else interval;
        PollIntervals(next, responses[1..]);
        forall j | 0 <= j < |run.waits|
          ensures run.waits[j] == interval + SlowDownStep * CountSlowDowns(responses[..j])
        {
          if j > 0 {
            IntervalStep(interval, responses, j);
          }
        }
        IntervalStep(interval, responses, |run.waits|);
      } else {
        assert responses[..1][1..] == [];
      }
    }
  }

  /** One step of PollIntervals: shifting an index past a non-terminal first response. */
  lemma IntervalStep(interval: nat, responses: seq<TokenResponse>, j: nat)
    requires |responses| >= 1 && 1 <= j <= |responses|
    requires Classify(responses[0]).Pending? || Classify(responses[0]).SlowDown?
    ensures var next := if Classify(responses[0]).SlowDown? then interval + SlowDownStep else interval;
      interval + SlowDownStep * CountSlowDowns(responses[..j]) == next + SlowDownStep * CountSlowDowns(responses[1..][..j - 1])
  {
    assert responses[..j][1..] == responses[1..][..j - 1];
  }

  /** The interval never decreases: each delay is at least the one before it. */
  lemma WaitsNeverDecrease(interval: nat, responses: seq<TokenResponse>, i: nat, j: nat)
    requires i <= j < |Poll(interval, responses).waits|
    ensures interval <= Poll(interval, responses).waits[i] <= Poll(interval, responses).waits[j]
  {
    PollIntervals(interval, responses);
    CountMonotone(responses, i, j);
  }

  lemma {:induction false} CountMonotone(responses: seq<TokenResponse>, i: nat, j: nat)
    requires i <= j <= |responses|
    ensures CountSlowDowns(responses[..i]) <= CountSlowDowns(responses[..j])
    decreases j
  {
    if i > 0 {
      CountMonotone(responses[1..], i - 1, j - 1);
      assert responses[..i][1..] == responses[1..][..i - 1];
      assert responses[..j][1..] == responses[1..][..j - 1];
    }
  }

  /** The scenario `authorization_pending, authorization_pending, slow_down, <token>`:
      four requests, the fourth after a delay raised by 5, resolving with the fourth payload. */
  lemma PendingPendingSlowDownToken(token: TokenResponse)
    requires !Truthy(token.error)
    ensures var pending := TokenResponse(Some("authorization_pending"), None, map[]);
      var slow := TokenResponse(Some("slow_down"), None, map[]);
      Poll(InitialInterval, [pending, pending, slow, token]) == PollRun([5, 5, 5, 10], 10, Resolved(token))
  {
    var pending := TokenResponse(Some("authorization_pending"), None, map[]);
    var slow := TokenResponse(Some("slow_down"), None, map[]);
    var script := [pending, pending, slow, token];
    assert script[1..] == [pending, slow, token];
    assert script[1..][1..] == [slow, token];
    assert script[1..][1..][1..] == [token];
    assert Poll(10, [token]) == PollRun([10], 10, Resolved(token));
    assert Poll(5, [slow, token]) == PollRun([5, 10], 10, Resolved(token));
    assert Poll(5, [pending, slow, token]) == PollRun([5, 5, 10], 10, Resolved(token));
  }

  /** `access_denied` ends polling after that one request with exit code 0. */
  lemma DeniedStopsPolling(responses: seq<TokenResponse>, interval: nat)
    requires |responses| >= 1 && responses[0].error == Some("access_denied")
    ensures Poll(interval, responses) == PollRun([interval], interval, Rejected(ExitError(0, "access_denied")))
  {
  }

  /** A run preceded by requests already made with the given delays. */
  function Prepend(done: seq<nat>, run: PollRun): PollRun {
    PollRun(done + run.waits, run.finalInterval, run.outcome)
  }

  lemma PrependTwice(done: seq<nat>, more: seq<nat>, run: PollRun)
    ensures Prepend(done, Prepend(more, run)) == Prepend(done + more, run)
  {
    assert done + (more + run.waits) == (done + more) + run.waits;
  }

  /** `n` copies of the request `r`. */
  function Repeat(r: TokenRequest, n: nat): (rs: seq<TokenRequest>)
    ensures |rs| == n && forall j :: 0 <= j < n ==> rs[j] == r
  {
    if n == 0 then [] else Repeat(r, n - 1) + [r]
  }

  /** The poll loop after request `i`, given what the requests before it left. */
  lemma PollAdvance(start: nat, responses: seq<TokenResponse>, i: nat, done: seq<nat>, interval: nat)
    requires i < |responses|
    requires Poll(start, responses) == Prepend(done, Poll(interval, responses[i..]))
    ensures var s := Classify(responses[i]);
      && (s.Pending? ==> Poll(start, responses) == Prepend(done + [interval], Poll(interval, responses[i + 1..])))
      && (s.SlowDown? ==> Poll(start, responses) == Prepend(done + [interval], Poll(interval + SlowDownStep, responses[i + 1..])))
      && (IsTerminal(responses[i]) ==> Poll(start, responses) == PollRun(done + [interval], interval, Terminal(responses[i])))
  {
    PollStep(interval, responses[i..]);
    assert responses[i..][1..] == responses[i + 1..];
    var s := Classify(responses[i]);
    if s.Pending? {
      PrependTwice(done, [interval], Poll(interval, responses[i + 1..]));
    } else if s.SlowDown? {
      PrependTwice(done, [interval], Poll(interval + SlowDownStep, responses[i + 1..]));
    }
  }

  /** One poll: the first response decides whether polling goes on, and with which interval. */
  lemma PollStep(interval: nat, responses: seq<TokenResponse>)
    requires responses != []
    ensures var s := Classify(responses[0]);
      && (s.Pending? ==> Poll(interval, responses) == Prepend([interval], Poll(interval, responses[1..])))
      && (s.SlowDown? ==> Poll(interval, responses) == Prepend([interval], Poll(interval + SlowDownStep, responses[1..])))
      && (s.Resolve? ==> Poll(interval, responses) == PollRun([interval], interval, Resolved(s.payload)))
      && (s.Reject? ==> Poll(interval, responses) == PollRun([interval], interval, Rejected(s.error)))
  {
  }

  /** The outcome of the login command. */
  datatype LoginEnd =
    | LoggedIn(accessToken: Option<string>)  // the token was stored
    | Exited(code: int)                      // `this.exit(code)` on an `ExitError`
    | Failed(message: string)                // an error the command does not handle
    | StillWaiting                           // the script ended while polling continued

  /** The configuration update that persists a token: only `auth.access_token`. */
  function TokenUpdate(payload: TokenResponse): (u: ConfigStore.Config)
    ensures ConfigStore.Endpoint(u) == None
    ensures ConfigStore.AccessToken(u) == if "access_token" in payload.fields then Some(payload.fields["access_token"]) else None
  {
    ConfigStore.Config(Some(ConfigStore.Auth(None, if "access_token" in payload.fields then Some(payload.fields["access_token"]) else None)))
  }

  /** Persisting the token keeps the stored endpoint and keeps the configuration valid. */
  lemma TokenUpdateKeepsEndpoint(stored: ConfigStore.Config, payload: TokenResponse)
    requires ConfigStore.Valid(stored)
    ensures var merged := ConfigStore.Merge(stored, TokenUpdate(payload));
      && ConfigStore.Valid(merged)
      && ConfigStore.Endpoint(merged) == ConfigStore.Endpoint(stored)
      && ConfigStore.AccessToken(merged) == (if "access_token" in payload.fields then Some(payload.fields["access_token"]) else ConfigStore.AccessToken(stored))
  {
  }

  /** The login command: its polling interval and the requests it has made. */
  class AuthLogin {
    var pollingInterval: nat
    var endpoint: string
    /** Every token request sent, in order. */
    var requests: seq<TokenRequest>
    /** The `setTimeout` delay, in seconds, that preceded each request. */
    var waits: seq<nat>

    constructor ()
      ensures pollingInterval == InitialInterval && requests == [] && waits == []
    {
      pollingInterval := InitialInterval;
      endpoint := "";
      requests := [];
      waits := [];
    }

    /** `pollForToken`: poll once per scheduled timer until a response ends the loop. */
    method PollForToken(deviceCode: string, responses: seq<TokenResponse>) returns (outcome: PollOutcome)
      modifies this
      ensures var run := Poll(old(pollingInterval), responses);
        && outcome == run.outcome
        && pollingInterval == run.finalInterval
        && waits == old(waits) + run.waits
        && requests == old(requests) + Repeat(TokenRequest(GrantType, ClientId, deviceCode), |run.waits|)
      ensures endpoint == old(endpoint)
    {
      var request := TokenRequest(GrantType, ClientId, deviceCode);
      var i := 0;
      var polling := true;
      outcome := StillPolling;
      ghost var made: seq<nat> := [];
      while polling && i < |responses|
        invariant 0 <= i <= |responses| && |made| == i
        invariant waits == old(waits) + made
        invariant requests == old(requests) + Repeat(request, i)
        invariant endpoint == old(endpoint)
        invariant polling ==> outcome == StillPolling
        invariant polling ==> Poll(old(pollingInterval), responses) == Prepend(made, Poll(pollingInterval, responses[i..]))
        invariant !polling ==> Poll(old(pollingInterval), responses) == PollRun(made, pollingInterval, outcome)
      {
        ghost var before := made;
        made := made + [pollingInterval];
        outcome, polling := PollOnce(request, responses, i, old(pollingInterval), before);
        assert Repeat(request, i + 1) == Repeat(request, i) + [request];
        i := i + 1;
      }
      if polling {
        assert responses[i..] == [];
      }
    }

    /** One firing of the timer: the delay, request `i` and the handling of its response, with
        the run of `Poll` from `start` advanced past it. */
    method PollOnce(request: TokenRequest, responses: seq<TokenResponse>, i: nat, ghost start: nat, ghost made: seq<nat>)
      returns (outcome: PollOutcome, polling: bool)
      modifies this
      requires i < |responses|
      requires Poll(start, responses) == Prepend(made, Poll(pollingInterval, responses[i..]))
      ensures waits == old(waits) + [old(pollingInterval)] && requests == old(requests) + [request]
      ensures endpoint == old(endpoint)
      ensures polling ==> outcome == StillPolling
      ensures polling ==> Poll(start, responses) == Prepend(made + [old(pollingInterval)], Poll(pollingInterval, responses[i + 1..]))
      ensures !polling ==> Poll(start, responses) == PollRun(made + [old(pollingInterval)], pollingInterval, outcome)
    {
      PollAdvance(start, responses, i, made, pollingInterval);
      SendTokenRequest(request);
      outcome, polling := HandleResponse(responses[i]);
    }

    /** The handling of one token response inside the timer callback: keep polling (with a
        longer interval on `slow_down`), or resolve or reject. */
    method HandleResponse(payload: TokenResponse) returns (outcome: PollOutcome, polling: bool)
      modifies this
      ensures var s := Classify(payload);
        && (polling <==> s.Pending? || s.SlowDown?)
        && pollingInterval == old(pollingInterval) + (if s.SlowDown? then SlowDownStep else 0)
        && (polling ==> outcome == StillPolling)
        && (!polling ==> IsTerminal(payload) && outcome == Terminal(payload))
      ensures waits == old(waits) && requests == old(requests) && endpoint == old(endpoint)
    {
      outcome, polling := StillPolling, true;
      if Truthy(payload.error) {
        if payload.error.value == "authorization_pending" {
        } else if payload.error.value == "slow_down" {
          pollingInterval := pollingInterval + SlowDownStep;
        } else if payload.error.value == "access_denied" {
          outcome, polling := Rejected(ExitError(0, "access_denied")), false;
        } else if payload.error.value == "expired_token" {
          outcome, polling := Rejected(ExitError(0, "expired_token")), false;
        } else {
          outcome, polling := Rejected(ExitError(1, payload.errorDescription.GetOr(""))), false;
        }
      } else {
        outcome, polling := Resolved(payload), false;
      }
    }

    /** The scheduled timer fires after `pollingInterval` seconds and one token request is sent. */
    method SendTokenRequest(request: TokenRequest)
      modifies this
      ensures waits == old(waits) + [pollingInterval] && requests == old(requests) + [request]
      ensures pollingInterval == old(pollingInterval) && endpoint == old(endpoint)
    {
      waits := waits + [pollingInterval];
      requests := requests + [request];
    }

    /** `run`: load the configuration, require an endpoint, poll, and persist the token. */
    method Run(store: ConfigStore.Store, authorization: DeviceAuthorization, responses: seq<TokenResponse>) returns (end: LoginEnd)
      modifies this, store
      ensures var loaded := ConfigStore.LoadResult(old(store.file), store.nodeEnv);
        && (loaded.Err? ==> end == Failed(loaded.message))
        && (loaded.Ok? && !Truthy(ConfigStore.Endpoint(loaded.value)) ==> end == Failed("Auth endpoint is required"))
        && (loaded.Ok? && Truthy(ConfigStore.Endpoint(loaded.value)) ==>
              var run := Poll(old(pollingInterval), responses);
              && requests == old(requests) + Repeat(TokenRequest(GrantType, ClientId, authorization.deviceCode), |run.waits|)
              && (run.outcome.Rejected? ==> end == Exited(run.outcome.error.code))
              && (run.outcome == StillPolling ==> end == StillWaiting)
              && (run.outcome.Resolved? ==>
                    var merged := ConfigStore.Merge(loaded.value, TokenUpdate(run.outcome.payload));
                    && end == LoggedIn(ConfigStore.AccessToken(TokenUpdate(run.outcome.payload)))
                    && store.file == ConfigStore.Present(ConfigStore.Parsed(ConfigStore.ToJson(merged)))))
      ensures var loaded := ConfigStore.LoadResult(old(store.file), store.nodeEnv);
        (loaded.Err? || !Truthy(ConfigStore.Endpoint(loaded.value)) || !Poll(old(pollingInterval), responses).outcome.Resolved?) ==>
          store.file == ConfigStore.AfterLoad(old(store.file), store.nodeEnv)
      ensures var loaded := ConfigStore.LoadResult(old(store.file), store.nodeEnv);
        (loaded.Err? || !Truthy(ConfigStore.Endpoint(loaded.value))) ==>
          pollingInterval == old(pollingInterval) && waits == old(waits) && requests == old(requests) && endpoint == old(endpoint)
      ensures var loaded := ConfigStore.LoadResult(old(store.file), store.nodeEnv);
        loaded.Ok? && Truthy(ConfigStore.Endpoint(loaded.value)) ==>
          var run := Poll(old(pollingInterval), responses);
          && pollingInterval == run.finalInterval
          && waits == old(waits) + run.waits
          && endpoint == ConfigStore.Endpoint(loaded.value).value
    {
      var config := store.Load();
      if config.Err? {
        return Failed(config.message);
      }
      if !Truthy(ConfigStore.Endpoint(config.value)) {
        return Failed("Auth endpoint is required");
      }
      endpoint := ConfigStore.Endpoint(config.value).value;
      var outcome := PollForToken(authorization.deviceCode, responses);
      match outcome
      case Rejected(e) =>
        return Exited(e.code);
      case StillPolling =>
        return StillWaiting;
      case Resolved(payload) =>
        ConfigStore.LoadIsIdempotent(old(store.file), store.nodeEnv);
        TokenUpdateKeepsEndpoint(config.value, payload);
        var saved := store.Update(TokenUpdate(payload));
        return LoggedIn(ConfigStore.AccessToken(TokenUpdate(payload)));
    }
  }
}
