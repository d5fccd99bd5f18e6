/** The flight client's "all active flights" query: base-URL normalisation,
    the best-effort bearer header, the request, the decode-and-filter loop over
    the `states` rows, and the mapping of failures to the exceptions callers see. */
module SkyTrackingService {
  import opened Wrappers
  import opened DotNet
  import opened Exceptions
  import opened Configuration
  import opened OpenSkyModels
  import TokenService

  /** `AuthenticationHeaderValue(scheme, parameter)`. */
  datatype AuthenticationHeader = AuthenticationHeader(scheme: string, parameter: string)

  /** The service's state: `_baseUrl`, and the `Authorization` default header
      of its `HttpClient`, which persists from one query to the next. */
  datatype Service = Service(baseUrl: string, authorization: Option<AuthenticationHeader>)

  /** The constructor: `_baseUrl` is the configured URL without its trailing slashes. */
  function NewService(options: OpenSkyNetworkOptions): (svc: Service)
    ensures svc.authorization.None?
    ensures |svc.baseUrl| <= |options.baseUrl| && svc.baseUrl == options.baseUrl[..|svc.baseUrl|]
    ensures forall i :: |svc.baseUrl| <= i < |options.baseUrl| ==> options.baseUrl[i] == '/'
    ensures svc.baseUrl == [] || svc.baseUrl[|svc.baseUrl| - 1] != '/'
  {
    Service(TrimEndChar(options.baseUrl, '/'), None)
  }

  const StatesAllPath: string := "/states/all"

  /** The request URL of `GetActiveFlightsAsync`. */
  function StatesAllUrl(baseUrl: string): string {
    baseUrl + StatesAllPath
  }

  /** The request URL is the configured URL, stripped of its trailing slashes,
      followed by exactly one slash and `states/all`. */
  lemma StatesAllUrlShape(options: OpenSkyNetworkOptions)
    ensures var url := StatesAllUrl(NewService(options).baseUrl);
      var base := url[..|url| - |StatesAllPath|];
      && |url| >= |StatesAllPath|
      && url[|url| - |StatesAllPath|..] == "/states/all"
      && |base| <= |options.baseUrl| && base == options.baseUrl[..|base|]
      && (forall i :: |base| <= i < |options.baseUrl| ==> options.baseUrl[i] == '/')
      && (base == [] || base[|base| - 1] != '/')
  {
    var url := StatesAllUrl(NewService(options).baseUrl);
    assert url[..|url| - |StatesAllPath|] == NewService(options).baseUrl;
  }

  /** Configuring the base URL with any number of extra trailing slashes
      yields the same request URL. */
  lemma StatesAllUrlIgnoresTrailingSlashes(options: OpenSkyNetworkOptions, n: nat)
    ensures StatesAllUrl(NewService(options.(baseUrl := options.baseUrl + seq(n, _ => '/'))).baseUrl)
         == StatesAllUrl(NewService(options).baseUrl)
  {
    TrimEndCharAbsorbs(options.baseUrl, '/', n);
  }

  /** `SetAuthorizationHeaderAsync` after the token call: a token becomes the
      bearer header; a failure is swallowed and the header stays as it was. */
  function SetAuthorizationHeader(svc: Service, token: Result<string, Exception>): (svc': Service)
    ensures svc'.baseUrl == svc.baseUrl
    ensures token.Success? ==> svc'.authorization == Some(AuthenticationHeader("Bearer", token.value))
    ensures token.Failure? ==> svc' == svc
  {
    match token
    case Success(t) => svc.(authorization := Some(AuthenticationHeader("Bearer", t)))
    case Failure(_) => svc
  }

  /** The `foreach` over the rows, as a reference: each row's decoding, in order,
      refused rows dropped. A `null` row makes `FromArray` dereference `state.Length`
      outside its `try`, so it aborts the whole list. */
  function DecodeStates<W>(rt: Runtime<W>, states: seq<Option<Row<W>>>): (r: Result<seq<OpenSkyState>, Exception>)
    ensures r.Failure? ==> r.error == NullReferenceException
    ensures r.Success? ==> |r.value| <= |states|
  {
    if states == [] then Success([])
    else
      var init :- DecodeStates(rt, states[..|states| - 1]);
      match states[|states| - 1]
      case None => Failure(NullReferenceException)
      case Some(row) => Success(init + Decoded(rt, row))
  }

  /** The contribution of one non-null row: its record, or nothing. */
  function Decoded<W>(rt: Runtime<W>, row: Row<W>): (r: seq<OpenSkyState>)
    ensures |r| <= 1
    ensures |row| < MinRowLength ==> r == []
  {
    match FromArray(rt, row)
    case Some(s) => [s]
    case None => []
  }

  /** Decoding fails exactly when some row is `null`. */
  lemma {:induction false} DecodeStatesFailsIffNullRow<W>(rt: Runtime<W>, states: seq<Option<Row<W>>>)
    ensures DecodeStates(rt, states).Failure? <==> exists i :: 0 <= i < |states| && states[i].None?
    decreases |states|
  {
    if states != [] {
      var init := states[..|states| - 1];
      DecodeStatesFailsIffNullRow(rt, init);
      if exists i :: 0 <= i < |init| && init[i].None? {
        var i :| 0 <= i < |init| && init[i].None?;
        assert states[i] == init[i];
      }
      if exists i :: 0 <= i < |states| && states[i].None? {
        var i :| 0 <= i < |states| && states[i].None?;
        if i < |init| {
          assert init[i] == states[i];
        }
      }
    }
  }

  /** Decoding one more row: a failure stays a failure, a `null` row fails,
      and otherwise the row's contribution is appended. */
  lemma DecodeStatesSnoc<W>(rt: Runtime<W>, states: seq<Option<Row<W>>>, row: Option<Row<W>>)
    ensures DecodeStates(rt, states + [row]) ==
      if DecodeStates(rt, states).Failure? || row.None? then Failure(NullReferenceException)
      else Success(DecodeStates(rt, states).value + Decoded(rt, row.value))
  {
    var all := states + [row];
    assert all[..|all| - 1] == states;
    assert all[|all| - 1] == row;
  }

  /** The loop of `GetActiveFlightsAsync`, lines 51-59, computing the reference. */
  method DecodeStatesLoop<W>(rt: Runtime<W>, states: seq<Option<Row<W>>>) returns (r: Result<seq<OpenSkyState>, Exception>)
    ensures r == DecodeStates(rt, states)
  {
    var flights: seq<OpenSkyState> := [];
    var i := 0;
    while i < |states|
      invariant 0 <= i <= |states|
      invariant DecodeStates(rt, states[..i]) == Success(flights)
    {
      if states[i].None? {
        // `FromArray(null)` dereferences `state.Length` outside its `try`.
        DecodeStatesFailsIffNullRow(rt, states);
        return Failure(NullReferenceException);
      }
      assert states[..i + 1] == states[..i] + [states[i]];
      DecodeStatesSnoc(rt, states[..i], states[i]);
      var state := FromArray(rt, states[i].value);
      if state.Some? {
        flights := flights + [state.value];
      }
      assert flights == DecodeStates(rt, states[..i + 1]).value;
      i := i + 1;
    }
    assert states[..i] == states;
    return Success(flights);
  }

  /** Decoding distributes over concatenation of row lists: the output keeps
      the rows' order, and a `null` row on either side fails the whole. */
  lemma {:induction false} DecodeStatesAppend<W>(rt: Runtime<W>, a: seq<Option<Row<W>>>, b: seq<Option<Row<W>>>)
    ensures DecodeStates(rt, a + b) ==
      if DecodeStates(rt, a).Success? && DecodeStates(rt, b).Success?
      then Success(DecodeStates(rt, a).value + DecodeStates(rt, b).value)
      else Failure(NullReferenceException)
    decreases |b|
  {
    if b == [] {
      assert a + b == a;
      assert DecodeStates(rt, b).value == [];
      assert DecodeStates(rt, a).Success? ==> DecodeStates(rt, a).value + [] == DecodeStates(rt, a).value;
    } else {
      var b', x := b[..|b| - 1], b[|b| - 1];
      assert b == b' + [x];
      assert a + b == (a + b') + [x];
      DecodeStatesAppend(rt, a, b');
      DecodeStatesSnoc(rt, b', x);
      DecodeStatesSnoc(rt, a + b', x);
      if DecodeStates(rt, a).Success? && DecodeStates(rt, b).Success? {
        var da, db', dx := DecodeStates(rt, a).value, DecodeStates(rt, b').value, Decoded(rt, x.value);
        assert DecodeStates(rt, b).value == db' + dx;
        assert DecodeStates(rt, a + b).value == (da + db') + dx;
        assert (da + db') + dx == da + (db' + dx);
      }
    }
  }

  /** A non-null row contributes exactly its own decoding. */
  lemma DecodeStatesSingle<W>(rt: Runtime<W>, row: Row<W>)
    ensures DecodeStates(rt, [Some(row)]) == Success(Decoded(rt, row))
  {
    var none: seq<Option<Row<W>>> := [];
    DecodeStatesSnoc(rt, none, Some(row));
    assert none + [Some(row)] == [Some(row)];
    assert DecodeStates(rt, none).value + Decoded(rt, row) == Decoded(rt, row);
  }

  /** A row shorter than 17 elements never contributes: removing it changes nothing. */
  lemma {:induction false} ShortRowNeverContributes<W>(rt: Runtime<W>, states: seq<Option<Row<W>>>, i: nat)
    requires i < |states| && states[i].Some? && |states[i].value| < MinRowLength
    ensures DecodeStates(rt, states) == DecodeStates(rt, states[..i] + states[i + 1..])
  {
    var pre, mid, post := states[..i], [states[i]], states[i + 1..];
    assert states == (pre + mid) + post;
    DecodeStatesSingle(rt, states[i].value);
    DecodeStatesAppend(rt, pre, mid);
    DecodeStatesAppend(rt, pre + mid, post);
    DecodeStatesAppend(rt, pre, post);
    if DecodeStates(rt, pre).Success? {
      assert DecodeStates(rt, pre).value + [] == DecodeStates(rt, pre).value;
    }
  }

  /** The row is non-null and decodes to `f`. */
  predicate RowDecodesTo<W>(rt: Runtime<W>, row: Option<Row<W>>, f: OpenSkyState) {
    row.Some? && FromArray(rt, row.value) == Some(f)
  }

  /** Every decoded flight is the decoding of some row, and every row that
      decodes contributes its record. */
  lemma {:induction false} DecodeStatesMembership<W>(rt: Runtime<W>, states: seq<Option<Row<W>>>, f: OpenSkyState)
    requires DecodeStates(rt, states).Success?
    ensures f in DecodeStates(rt, states).value <==> exists i :: 0 <= i < |states| && RowDecodesTo(rt, states[i], f)
    decreases |states|
  {
    if states != [] {
      var init, last := states[..|states| - 1], states[|states| - 1];
      assert states == init + [last];
      DecodeStatesSnoc(rt, init, last);
      DecodeStatesMembership(rt, init, f);
      if f in DecodeStates(rt, states).value {
        if f in DecodeStates(rt, init).value {
          var i :| 0 <= i < |init| && RowDecodesTo(rt, init[i], f);
          assert states[i] == init[i];
        } else {
          assert RowDecodesTo(rt, states[|states| - 1], f);
        }
      }
      if exists i :: 0 <= i < |states| && RowDecodesTo(rt, states[i], f) {
        var i :| 0 <= i < |states| && RowDecodesTo(rt, states[i], f);
        if i < |init| {
          assert init[i] == states[i];
        }
      }
    }
  }

  /** What the flight endpoint's round trip produced. */
  datatype StatesOutcome<W> =
    /** Transport failure or non-success status. */
    | TransportFailure
    /** The client's timeout elapsed. */
    | TimedOut
    /** The body is not valid JSON for `OpenSkyStatesResponse`. */
    | MalformedBody
    /** The body deserialised, possibly to `null`. */
    | Body(response: Option<OpenSkyStatesResponse<W>>)
    /** Any other exception out of the client or the deserialiser, such as an
        `InvalidOperationException` for a request URL that is not absolute. */
    | Raised(e: Exception)

  /** The `try` block after the header is set, with the exceptions it raises. */
  function FetchStates<W>(rt: Runtime<W>, outcome: StatesOutcome<W>): Result<seq<OpenSkyState>, Exception> {
    match outcome
    case TransportFailure => Failure(HttpRequestException)
    case TimedOut => Failure(TaskCanceledException)
    case MalformedBody => Failure(JsonException)
    case Body(response) =>
      if response.None? || response.value.states.None? then Success([])
      else DecodeStates(rt, response.value.states.value)
    case Raised(e) => Failure(e)
  }

  /** The three `catch` clauses of `GetActiveFlightsAsync`; the last one rethrows. */
  function MapQueryError(e: Exception): Exception {
    WrapCaught(e, "Failed to fetch flights from OpenSky Network", "Failed to parse OpenSky Network response")
  }

  /** One query: its result, the service and token cache afterwards, the token
      request sent (if any) and the URL fetched. */
  datatype Query = Query(
    result: Result<seq<OpenSkyState>, Exception>,
    service: Service,
    tokens: TokenService.TokenCache,
    tokenRequest: Option<TokenService.TokenRequest>,
    url: string)

  /** `GetActiveFlightsAsync`: ask the token cache, set the header if that
      worked, fetch `<baseUrl>/states/all`, decode, and map failures. */
  function GetActiveFlights<W>(rt: Runtime<W>, options: OpenSkyNetworkOptions, svc: Service,
                               tokens: TokenService.TokenCache, now: TokenService.DateTime,
                               tokenFetch: TokenService.Fetch, outcome: StatesOutcome<W>): (q: Query)
    ensures q.url == StatesAllUrl(svc.baseUrl)
    ensures q.service.baseUrl == svc.baseUrl
    ensures q.result.Failure? <==> FetchStates(rt, outcome).Failure?
    ensures var call := TokenService.GetAccessToken(options, tokens, now, tokenFetch);
      && q.tokens == call.cache
      && q.tokenRequest == call.request
      && (call.result.Success? ==> q.service.authorization == Some(AuthenticationHeader("Bearer", call.result.value)))
      && (call.result.Failure? ==> q.service == svc)
  {
    var call := TokenService.GetAccessToken(options, tokens, now, tokenFetch);
    var svc' := SetAuthorizationHeader(svc, call.result);
    Query(FetchStates(rt, outcome).MapFailure(MapQueryError), svc', call.cache, call.request, StatesAllUrl(svc.baseUrl))
  }

  /** A failed token acquisition does not stop the query: whatever the credential
      endpoint answered, the query fetches the same URL and yields the same
      flights or error, and a failure leaves the header as it was. */
  lemma TokenFailureIsSwallowed<W>(rt: Runtime<W>, options: OpenSkyNetworkOptions, svc: Service,
                                   tokens: TokenService.TokenCache, now: TokenService.DateTime,
                                   f1: TokenService.Fetch, f2: TokenService.Fetch, outcome: StatesOutcome<W>)
    ensures var q1 := GetActiveFlights(rt, options, svc, tokens, now, f1, outcome);
      var q2 := GetActiveFlights(rt, options, svc, tokens, now, f2, outcome);
      && q1.result == q2.result
      && q1.url == q2.url
      && (TokenService.GetAccessToken(options, tokens, now, f1).result.Failure? ==> q1.service == svc)
  {
  }

  /** A `null` body or a `null` `states` array gives an empty list, not an error. */
  lemma MissingStatesGiveEmptyList<W>(rt: Runtime<W>, options: OpenSkyNetworkOptions, svc: Service,
                                      tokens: TokenService.TokenCache, now: TokenService.DateTime,
                                      tokenFetch: TokenService.Fetch, response: Option<OpenSkyStatesResponse<W>>)
    requires response.None? || response.value.states.None?
    ensures GetActiveFlights(rt, options, svc, tokens, now, tokenFetch, Body(response)).result == Success([])
  {
  }

  /** The exceptions a query surfaces, by cause. */
  lemma QueryErrors<W>(rt: Runtime<W>, options: OpenSkyNetworkOptions, svc: Service,
                       tokens: TokenService.TokenCache, now: TokenService.DateTime,
                       tokenFetch: TokenService.Fetch, outcome: StatesOutcome<W>)
    ensures var r := GetActiveFlights(rt, options, svc, tokens, now, tokenFetch, outcome).result;
      && (outcome.TransportFailure? ==>
            r == Failure(InvalidOperationException("Failed to fetch flights from OpenSky Network", Some(HttpRequestException))))
      && (outcome.MalformedBody? ==>
            r == Failure(InvalidOperationException("Failed to parse OpenSky Network response", Some(JsonException))))
      && (outcome.TimedOut? ==> r == Failure(TaskCanceledException))
      && (outcome.Raised? ==> r == Failure(MapQueryError(outcome.e)))
      && (outcome.Body? && outcome.response.Some? && outcome.response.value.states.Some? ==>
            (r.Failure? <==> exists i :: 0 <= i < |outcome.response.value.states.value| &&
                                          outcome.response.value.states.value[i].None?))
  {
    if outcome.Body? && outcome.response.Some? && outcome.response.value.states.Some? {
      DecodeStatesFailsIffNullRow(rt, outcome.response.value.states.value);
    }
  }

  /** With rows present, the query returns exactly the decoded rows, and at
      most one flight per row. */
  lemma QueryReturnsDecodedRows<W>(rt: Runtime<W>, options: OpenSkyNetworkOptions, svc: Service,
                                   tokens: TokenService.TokenCache, now: TokenService.DateTime,
                                   tokenFetch: TokenService.Fetch, response: OpenSkyStatesResponse<W>)
    requires response.states.Some?
    requires forall i :: 0 <= i < |response.states.value| ==> response.states.value[i].Some?
    ensures var r := GetActiveFlights(rt, options, svc, tokens, now, tokenFetch, Body(Some(response))).result;
      && r == DecodeStates(rt, response.states.value)
      && r.Success?
      && |r.value| <= |response.states.value|
  {
    DecodeStatesFailsIffNullRow(rt, response.states.value);
  }
}
