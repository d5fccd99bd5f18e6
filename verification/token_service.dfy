/** The access-token cache: one call of `GetAccessTokenAsync` as a transition
    over the two cached fields, driven by the clock and by what the credential
    endpoint answered. */
module TokenService {
  import opened Wrappers
  import opened DotNet
  import opened Exceptions
  import opened Configuration

  /** `DateTime` resolution: 100-nanosecond ticks. */
  const TicksPerSecond: int := 10_000_000

  /** `DateTime.MaxValue.Ticks`: the last tick of the year 9999. */
  const MaxTicks: int := 3_155_378_975_999_999_999

  /** A `DateTime`, as ticks since 0001-01-01; `DateTime.MinValue` is 0. */
  type DateTime = t: int | 0 <= t <= MaxTicks

  const MinValue: DateTime := 0

  /** The safety margin taken off every token's declared lifetime. */
  const ExpiryBufferSeconds: int := 300

  /** `_cachedToken` and `_tokenExpiry`. */
  datatype TokenCache = TokenCache(cachedToken: Option<string>, tokenExpiry: DateTime)

  /** A newly constructed service: no token, expiry `DateTime.MinValue`. */
  const Initial := TokenCache(None, MinValue)

  /** The deserialised body of the credential endpoint; a JSON `null` string is `None`. */
  datatype TokenResponse = TokenResponse(
    accessToken: Option<string>,
    tokenType: Option<string>,
    expiresIn: Int32,
    refreshToken: Option<string>,
    scope: Option<string>)

  /** What the round trip to the credential endpoint produced. */
  datatype Fetch =
    /** Transport failure or non-success status. */
    | HttpFailure
    /** The client's timeout elapsed. */
    | Canceled
    /** The body is not valid JSON for `TokenResponse`. */
    | MalformedJson
    /** The body deserialised, possibly to `null`; `clock` is the second
        reading of `DateTime.UtcNow`, taken when the expiry is computed. */
    | Deserialized(response: Option<TokenResponse>, clock: DateTime)
    /** Any other exception out of the client or the deserialiser, such as an
        `InvalidOperationException` or `UriFormatException` for an unusable
        `AuthUrl`; it meets the same `catch` clauses. */
    | Raised(e: Exception)

  /** The form-encoded POST sent to the credential endpoint. */
  datatype TokenRequest = TokenRequest(url: string, form: seq<(string, string)>)

  /** One call: what it returned or threw, the cache afterwards, and the
      request it sent, if any. */
  datatype Call = Call(result: Result<string, Exception>, cache: TokenCache, request: Option<TokenRequest>)

  /** The client-credentials form, in the order the source builds it. */
  function TokenForm(options: OpenSkyNetworkOptions): seq<(string, string)> {
    [("grant_type", "client_credentials"),
     ("client_id", options.clientId),
     ("client_secret", options.clientSecret)]
  }

  function TokenRequestFor(options: OpenSkyNetworkOptions): TokenRequest {
    TokenRequest(options.authUrl, TokenForm(options))
  }

  /** The value of the first field named `key`, as a form reader would see it. */
  function Lookup(form: seq<(string, string)>, key: string): Option<string> {
    if form == [] then None
    else if form[0].0 == key then Some(form[0].1)
    else Lookup(form[1..], key)
  }

  /** The form's field names, in order. */
  function Keys(form: seq<(string, string)>): (ks: seq<string>)
    ensures |ks| == |form|
    ensures forall i :: 0 <= i < |form| ==> ks[i] == form[i].0
  {
    if form == [] then [] else [form[0].0] + Keys(form[1..])
  }

  /** The form carries exactly the grant type and the configured credentials, in that order. */
  lemma TokenFormCarriesCredentials(options: OpenSkyNetworkOptions)
    ensures Keys(TokenForm(options)) == ["grant_type", "client_id", "client_secret"]
    ensures Lookup(TokenForm(options), "grant_type") == Some("client_credentials")
    ensures Lookup(TokenForm(options), "client_id") == Some(options.clientId)
    ensures Lookup(TokenForm(options), "client_secret") == Some(options.clientSecret)
  {
    var form := TokenForm(options);
    assert form[1..][1..] == [("client_secret", options.clientSecret)];
    assert Lookup(form[1..][1..], "client_secret") == Some(options.clientSecret);
    assert Lookup(form[1..], "client_secret") == Some(options.clientSecret);
  }

  /** `string.IsNullOrEmpty`. */
  predicate IsNullOrEmpty(s: Option<string>) {
    s.None? || s.value == ""
  }

  /** The cache-hit test: a non-empty cached token and a clock strictly before the expiry. */
  predicate IsFresh(cache: TokenCache, now: DateTime) {
    !IsNullOrEmpty(cache.cachedToken) && now < cache.tokenExpiry
  }

  /** The `catch` clauses of `GetAccessTokenAsync`. */
  function MapTokenError(e: Exception): Exception {
    WrapCaught(e, "Failed to obtain access token from OpenSky Network",
                  "Failed to parse token response from OpenSky Network")
  }

  /** `DateTime.AddSeconds` for a whole number of seconds: throws when the
      result leaves the range of `DateTime`. */
  function AddSeconds(t: DateTime, seconds: int): (r: Result<DateTime, Exception>)
    ensures r.Success? <==> 0 <= t + seconds * TicksPerSecond <= MaxTicks
    ensures r.Success? ==> r.value == t + seconds * TicksPerSecond
    ensures r.Failure? ==> r.error == ArgumentOutOfRangeException
  {
    var ticks := t + seconds * TicksPerSecond;
    if 0 <= ticks <= MaxTicks then Success(ticks) else Failure(ArgumentOutOfRangeException)
  }

  /** Adding seconds and then taking them away again returns the original
      time, and adding is monotone in the number of seconds. */
  lemma AddSecondsRoundTrip(t: DateTime, seconds: int, more: int)
    ensures AddSeconds(t, seconds).Success? ==> AddSeconds(AddSeconds(t, seconds).value, -seconds) == Success(t)
    ensures AddSeconds(t, seconds).Success? && AddSeconds(t, more).Success? && seconds <= more ==>
      AddSeconds(t, seconds).value <= AddSeconds(t, more).value
  {
    if AddSeconds(t, seconds).Success? {
      var u := AddSeconds(t, seconds).value;
      assert u + -seconds * TicksPerSecond == t;
    }
    if seconds <= more {
      assert seconds * TicksPerSecond <= more * TicksPerSecond;
    }
  }

  /** `UtcNow.AddSeconds(ExpiresIn - 300)` as written: the subtraction is unchecked
      32-bit `int` arithmetic and wraps for lifetimes within 300 of `int.MinValue`. */
  function ExpiryAsWritten(clock: DateTime, expiresIn: Int32): Result<DateTime, Exception> {
    AddSeconds(clock, Wrap32(expiresIn - ExpiryBufferSeconds))
  }

  /** The expiry with the buffer subtracted exactly: 300 seconds before the
      issuer's declared end of life. */
  function ExpiryOf(clock: DateTime, expiresIn: Int32): (r: Result<DateTime, Exception>)
    ensures r.Success? ==> r.value + ExpiryBufferSeconds * TicksPerSecond == clock + expiresIn * TicksPerSecond
    ensures expiresIn <= ExpiryBufferSeconds && r.Success? ==> r.value <= clock
  {
    AddSeconds(clock, expiresIn - ExpiryBufferSeconds)
  }

  /** The counterexample: a declared lifetime of `int.MinValue` seconds, far
      below the buffer, yields under the as-written arithmetic an expiry about
      68 years after issuance (at 2025-01-01), so the token would be served from
      the cache instead of being refreshed. */
  lemma WrappedExpiryOutlivesNegativeLifetime()
    ensures var clock: DateTime := 638_712_864_000_000_000;
      && ExpiryAsWritten(clock, -0x8000_0000).Success?
      && ExpiryAsWritten(clock, -0x8000_0000).value > clock + 2_000_000_000 * TicksPerSecond
      && IsFresh(TokenCache(Some("t"), ExpiryAsWritten(clock, -0x8000_0000).value), clock)
  {
    assert Wrap32(-0x8000_0000 - ExpiryBufferSeconds) == 0x7FFF_FFFF - 299;
  }

  /** `GetAccessTokenAsync` between acquiring and releasing the semaphore. */
  function GetAccessToken(options: OpenSkyNetworkOptions, cache: TokenCache, now: DateTime, fetch: Fetch): (c: Call)
    ensures IsFresh(cache, now) ==> c == Call(Success(cache.cachedToken.value), cache, None)
    ensures !IsFresh(cache, now) ==> c.request == Some(TokenRequestFor(options))
    ensures c.result.Success? ==> c.result.value != "" && c.cache.cachedToken == Some(c.result.value)
    ensures c.result.Failure? ==> c.cache.tokenExpiry == cache.tokenExpiry
    ensures c.result.Failure? && c.result.error != ArgumentOutOfRangeException ==> c.cache == cache
  {
    if IsFresh(cache, now) then
      Call(Success(cache.cachedToken.value), cache, None)
    else
      var request := Some(TokenRequestFor(options));
      match fetch
      case HttpFailure => Call(Failure(MapTokenError(HttpRequestException)), cache, request)
      case MalformedJson => Call(Failure(MapTokenError(JsonException)), cache, request)
      case Canceled => Call(Failure(MapTokenError(TaskCanceledException)), cache, request)
      case Raised(e) => Call(Failure(MapTokenError(e)), cache, request)
      case Deserialized(response, clock) =>
        if response.None? || IsNullOrEmpty(response.value.accessToken) then
          Call(Failure(InvalidOperationException("Invalid token response from OpenSky Network", None)), cache, request)
        else
          var token := response.value.accessToken.value;
          // `_cachedToken` is assigned before the expiry is computed.
          var withToken := cache.(cachedToken := Some(token));
          match ExpiryOf(clock, response.value.expiresIn)
          case Failure(e) => Call(Failure(e), withToken, request)
          case Success(expiry) => Call(Success(token), withToken.(tokenExpiry := expiry), request)
  }

  /** A request is sent exactly when the cache cannot answer. */
  lemma CacheHitIff(options: OpenSkyNetworkOptions, cache: TokenCache, now: DateTime, fetch: Fetch)
    ensures GetAccessToken(options, cache, now, fetch).request.None? <==> IsFresh(cache, now)
  {
  }

  /** The initial state always takes the fetch path. */
  lemma InitialAlwaysFetches(options: OpenSkyNetworkOptions, now: DateTime, fetch: Fetch)
    ensures GetAccessToken(options, Initial, now, fetch).request == Some(TokenRequestFor(options))
  {
  }

  /** A successful fetch caches the response's token with expiry
      `clock + ExpiresIn - 300` seconds. */
  lemma SuccessfulFetchCaches(options: OpenSkyNetworkOptions, cache: TokenCache, now: DateTime,
                              response: TokenResponse, clock: DateTime)
    requires !IsFresh(cache, now)
    requires GetAccessToken(options, cache, now, Deserialized(Some(response), clock)).result.Success?
    ensures var c := GetAccessToken(options, cache, now, Deserialized(Some(response), clock));
      && c.result.value == response.accessToken.value
      && c.cache == TokenCache(response.accessToken, clock + (response.expiresIn - ExpiryBufferSeconds) * TicksPerSecond)
  {
  }

  /** The failures of the fetch path that happen before a token is accepted,
      with the exception each surfaces; the cache is untouched on all of them. */
  lemma FailedFetchLeavesCache(options: OpenSkyNetworkOptions, cache: TokenCache, now: DateTime, fetch: Fetch)
    requires !IsFresh(cache, now)
    requires fetch.Deserialized? ==> fetch.response.None? || IsNullOrEmpty(fetch.response.value.accessToken)
    ensures var c := GetAccessToken(options, cache, now, fetch);
      && c.cache == cache
      && (fetch.HttpFailure? ==>
            c.result.Failure? && c.result.error.InvalidOperationException? && c.result.error.inner == Some(HttpRequestException))
      && (fetch.MalformedJson? ==>
            c.result.Failure? && c.result.error.InvalidOperationException? && c.result.error.inner == Some(JsonException))
      && (fetch.Canceled? ==> c.result == Failure(TaskCanceledException))
      && (fetch.Deserialized? ==>
            c.result.Failure? && c.result.error.InvalidOperationException? && c.result.error.inner.None?)
      && (fetch.Raised? ==> c.result == Failure(MapTokenError(fetch.e)))
  {
  }

  /** The one failure after which the cache differs: the expiry leaves the
      range of `DateTime`, and the new token stays cached beside the old expiry.
      The same exception raised by the client itself leaves the cache alone. */
  lemma ExpiryOverflowKeepsNewToken(options: OpenSkyNetworkOptions, cache: TokenCache, now: DateTime, fetch: Fetch)
    requires GetAccessToken(options, cache, now, fetch).result == Failure(ArgumentOutOfRangeException)
    ensures fetch.Raised? || (fetch.Deserialized? && fetch.response.Some?)
    ensures fetch.Raised? ==> GetAccessToken(options, cache, now, fetch).cache == cache
    ensures fetch.Deserialized? ==>
              GetAccessToken(options, cache, now, fetch).cache == TokenCache(fetch.response.value.accessToken, cache.tokenExpiry)
  {
  }

  /** With a clock more than 2^31 + 300 seconds inside both ends of `DateTime`'s
      range the expiry cannot overflow, so every failure leaves the cache as it was. */
  lemma NoOverflowAwayFromDateTimeBounds(options: OpenSkyNetworkOptions, cache: TokenCache, now: DateTime, fetch: Fetch)
    requires fetch.Deserialized?
    requires (0x8000_0000 + ExpiryBufferSeconds) * TicksPerSecond <= fetch.clock <= MaxTicks - 0x8000_0000 * TicksPerSecond
    ensures GetAccessToken(options, cache, now, fetch).result != Failure(ArgumentOutOfRangeException)
  {
  }

  /** The 300-second buffer: a token declared valid for an hour at `clock` is
      served until 3300 seconds later and refreshed from then on. */
  lemma ExpiryBuffer(options: OpenSkyNetworkOptions, cache: TokenCache, now: DateTime, token: string,
                     clock: DateTime, later: DateTime, fetch: Fetch)
    requires !IsFresh(cache, now)
    requires token != ""
    requires clock + 3600 * TicksPerSecond <= MaxTicks
    ensures var c := GetAccessToken(options, cache, now,
                       Deserialized(Some(TokenResponse(Some(token), None, 3600, None, None)), clock));
      && c.result == Success(token)
      && (later < clock + 3300 * TicksPerSecond ==> GetAccessToken(options, c.cache, later, fetch).request.None?)
      && (later >= clock + 3300 * TicksPerSecond ==> GetAccessToken(options, c.cache, later, fetch).request.Some?)
  {
  }

  /** A token whose declared lifetime is at most the buffer is never served
      from the cache at or after the time it was received. */
  lemma ShortLifetimeForcesRefresh(options: OpenSkyNetworkOptions, cache: TokenCache, now: DateTime,
                                   response: TokenResponse, clock: DateTime, later: DateTime, fetch: Fetch)
    requires !IsFresh(cache, now)
    requires response.expiresIn <= ExpiryBufferSeconds
    requires later >= clock
    ensures var c := GetAccessToken(options, cache, now, Deserialized(Some(response), clock));
      c.result.Success? ==> GetAccessToken(options, c.cache, later, fetch).request.Some?
  {
    var c := GetAccessToken(options, cache, now, Deserialized(Some(response), clock));
    if c.result.Success? {
      assert c.cache.tokenExpiry <= clock;
    }
  }

  /** One call of the sequence: the clock reading at the cache check and the
      endpoint's answer should a request be sent. */
  datatype Invocation = Invocation(now: DateTime, fetch: Fetch)

  /** Consecutive calls, each seeing the cache the previous one left. */
  function Run(options: OpenSkyNetworkOptions, cache: TokenCache, calls: seq<Invocation>): (cs: seq<Call>)
    ensures |cs| == |calls|
    decreases |calls|
  {
    if calls == [] then []
    else
      var c := GetAccessToken(options, cache, calls[0].now, calls[0].fetch);
      [c] + Run(options, c.cache, calls[1..])
  }

  /** How many of the calls sent a request. */
  function RequestCount(cs: seq<Call>): (n: nat)
    ensures n <= |cs|
  {
    if cs == [] then 0 else (if cs[0].request.Some? then 1 else 0) + RequestCount(cs[1..])
  }

  /** While the clock stays before the expiry, a cached token answers every
      call: the same token, no request, the cache unchanged. */
  lemma {:induction false} CacheServesUntilExpiry(options: OpenSkyNetworkOptions, token: string, expiry: DateTime,
                                                 calls: seq<Invocation>)
    requires token != ""
    requires forall i :: 0 <= i < |calls| ==> calls[i].now < expiry
    ensures forall i :: 0 <= i < |calls| ==>
      Run(options, TokenCache(Some(token), expiry), calls)[i] == Call(Success(token), TokenCache(Some(token), expiry), None)
    ensures RequestCount(Run(options, TokenCache(Some(token), expiry), calls)) == 0
  {
    if calls != [] {
      var cache := TokenCache(Some(token), expiry);
      CacheServesUntilExpiry(options, token, expiry, calls[1..]);
      assert Run(options, cache, calls) == [Call(Success(token), cache, None)] + Run(options, cache, calls[1..]);
      forall i | 0 <= i < |calls|
        ensures Run(options, cache, calls)[i] == Call(Success(token), cache, None)
      {
        if i > 0 {
          assert calls[1..][i - 1] == calls[i];
        }
      }
    }
  }

  /** Starting from an empty cache, a successful first call followed by calls
      before the new expiry sends exactly one request, and every call returns
      the same token. */
  lemma OneRequestPerValidityWindow(options: OpenSkyNetworkOptions, calls: seq<Invocation>)
    requires |calls| > 0
    requires GetAccessToken(options, Initial, calls[0].now, calls[0].fetch).result.Success?
    requires forall i :: 1 <= i < |calls| ==>
      calls[i].now < GetAccessToken(options, Initial, calls[0].now, calls[0].fetch).cache.tokenExpiry
    ensures var cs := Run(options, Initial, calls);
      && RequestCount(cs) == 1
      && forall i :: 0 <= i < |cs| ==> cs[i].result == cs[0].result
  {
    var first := GetAccessToken(options, Initial, calls[0].now, calls[0].fetch);
    var token := first.result.value;
    var rest := calls[1..];
    forall i | 0 <= i < |rest|
      ensures rest[i].now < first.cache.tokenExpiry
    {
      assert rest[i] == calls[i + 1];
    }
    CacheServesUntilExpiry(options, token, first.cache.tokenExpiry, rest);
    var cs := Run(options, Initial, calls);
    assert cs == [first] + Run(options, first.cache, rest);
    assert RequestCount(cs) == 1 + RequestCount(cs[1..]);
    assert cs[1..] == Run(options, first.cache, rest);
  }
}
