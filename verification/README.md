# sky-tracker-mcp core, modelled in Dafny

This project models the engineering core of a proxy between a tool-calling
client and the OpenSky Network flight-tracking API. It covers three parts:

- **The state-vector decoder** (`OpenSkyState.FromArray` and its converters).
  It turns one loosely typed positional row of the `states` array into a
  flight-state record. A row shorter than 17 elements, or one on which any
  element it reads throws, gives no record. Each field has its own fallback:
  `null`, `""`, `0` or `false`.
- **The access-token cache** (`TokenService.GetAccessTokenAsync`). One call
  is modelled as a pure transition over the two cached fields, the token and
  its expiry. Its inputs are the clock and what the credential endpoint
  answered. Its outputs are the token or the exception, the new cache, and
  the request sent, if any.
- **The "all active flights" query** (`SkyTrackingService`). This covers the
  base-URL normalisation, the best-effort bearer header (a token failure is
  swallowed), the decode-and-filter loop over the rows, and the mapping of
  failures to the exceptions the caller sees.

The network, JSON deserialisation, logging and `DateTime.UtcNow` become
inputs. `ToString()` on a deserialised element and the culture-dependent
`long`/`int`/`double.TryParse` are function-valued fields of a `Runtime`
record, so every property holds whatever they do. `double` values are an
opaque bit pattern. `long` and `int` are the 64- and 32-bit integer ranges.
The clock is `DateTime` ticks, bounded by `DateTime.MaxValue`.

Files:

- `wrappers.dfy`: `Option` and `Result`.
- `exceptions.dfy`: the .NET exceptions involved, and the `catch` clauses that wrap them.
- `configuration.dfy`: the options record and its defaults.
- `dotnet.dfy`: `Int32`, `Int64`, unchecked 32-bit wrap-around, and
  `char.IsWhiteSpace`, `Trim()` and `TrimEnd(char)` written out.
- `open_sky_models.dfy`: the decoder.
- `token_service.dfy`: the token cache.
- `sky_tracking_service.dfy`: the flight query.

The model follows the code, including where its behaviour is easy to mistake:

- A `null` row inside `states` is not dropped. `FromArray` reads
  `state.Length` before its `try`, so the `NullReferenceException` escapes.
  The query's last `catch` rethrows it, and the whole query fails.
- Numeric parsing uses the current culture, not the invariant one.
- After a successful fetch whose lifetime is at most 300 seconds, the token
  is still returned to that caller, even though its recorded expiry already
  lies in the past.
- There is no result-size ceiling, and no by-identifier or by-area query,
  in the code that exists.

## Model

| member | source | states |
|---|---|---|
| OpenSkyModels.FromArray | src/SkyTrackerMcp.Http.OpenSkyNetwork/Services/Models/OpenSkyModels.cs:77-107 | A row with fewer than 17 elements never yields a record (the full decoding of longer rows is stated by the lemmas below) |
| OpenSkyModels.DecodeSucceedsIff | src/SkyTrackerMcp.Http.OpenSkyNetwork/Services/Models/OpenSkyModels.cs:77-107 | A row decodes if and only if it has at least 17 elements and no element the decoder reads (positions 0-17 except 12) throws from `ToString()`; any such exception yields null instead of propagating |
| OpenSkyModels.DecodedFields | src/SkyTrackerMcp.Http.OpenSkyNetwork/Services/Models/OpenSkyModels.cs:85-99 | `icao24` is the string form of element 0, or `""` when that is null, so it is never null; `callsign` is the trimmed string form of element 1 and stays null when that is null; `onGround` and `spi` are true exactly when elements 8 and 15 stringify to the case-sensitive literal `"true"`; `squawk` comes from element 14 |
| OpenSkyModels.TimestampFallbacks | src/SkyTrackerMcp.Http.OpenSkyNetwork/Services/Models/OpenSkyModels.cs:88-89 | `timePosition` is absent exactly when element 3 is null or does not parse as a `long`; `lastContact` falls back to 0 on the same condition for element 4 and is never absent |
| OpenSkyModels.IntegerFieldFallbacks | src/SkyTrackerMcp.Http.OpenSkyNetwork/Services/Models/OpenSkyModels.cs:100-101 | `positionSource` is the parse of element 16, or 0 when it is null or unparsable; `category` is absent for a 17-element row, and when an 18th element exists it is present, as 0 if that element is null or unparsable |
| OpenSkyModels.DoubleFields | src/SkyTrackerMcp.Http.OpenSkyNetwork/Services/Models/OpenSkyModels.cs:90-97 | The seven optional doubles are the `double` parses of elements 5-7, 9-11 and 13; the length guard on element 13 is always passed |
| OpenSkyModels.DecodeDependsOnlyOnReadIndices | src/SkyTrackerMcp.Http.OpenSkyNetwork/Services/Models/OpenSkyModels.cs:83-102 | Two rows of the same length that agree on positions 0-17 except 12 decode to the same result |
| OpenSkyModels.Element12NeverRead | src/SkyTrackerMcp.Http.OpenSkyNetwork/Services/Models/OpenSkyModels.cs:96-97 | Replacing element 12 never changes the decoding |
| OpenSkyModels.ConvertToLong | src/SkyTrackerMcp.Http.OpenSkyNetwork/Services/Models/OpenSkyModels.cs:110-115 | Throws exactly when the element's `ToString()` throws; otherwise null for a null element or string, else the `long` parse |
| OpenSkyModels.ConvertToDouble | src/SkyTrackerMcp.Http.OpenSkyNetwork/Services/Models/OpenSkyModels.cs:117-122 | Throws exactly when `ToString()` throws; otherwise null for a null element or string, else the `double` parse |
| OpenSkyModels.ConvertToBool | src/SkyTrackerMcp.Http.OpenSkyNetwork/Services/Models/OpenSkyModels.cs:124-129 | Throws exactly when `ToString()` throws; otherwise true if and only if the string form is exactly `"true"` |
| OpenSkyModels.ConvertToInt | src/SkyTrackerMcp.Http.OpenSkyNetwork/Services/Models/OpenSkyModels.cs:131-136 | Throws exactly when `ToString()` throws; otherwise the `int` parse, or 0 when null or unparsable |
| OpenSkyModels.ConvertCategory | src/SkyTrackerMcp.Http.OpenSkyNetwork/Services/Models/OpenSkyModels.cs:101 | Null for rows of at most 17 elements; for longer rows always a value, and failing only when element 17 throws |
| DotNet.Trim | src/SkyTrackerMcp.Http.OpenSkyNetwork/Services/Models/OpenSkyModels.cs:86 | The trimmed callsign is an infix of the original, everything cut off on either side is white space, and it neither starts nor ends with white space |
| DotNet.TrimEmptyIffAllWhiteSpace | src/SkyTrackerMcp.Http.OpenSkyNetwork/Services/Models/OpenSkyModels.cs:86 | Trimming leaves the empty string exactly when the callsign is all white space |
| DotNet.TrimIdempotent | src/SkyTrackerMcp.Http.OpenSkyNetwork/Services/Models/OpenSkyModels.cs:86 | Trimming a trimmed callsign changes nothing |
| DotNet.TrimEndChar | src/SkyTrackerMcp.Http.OpenSkyNetwork/Services/SkyTrackingService.cs:28 | `TrimEnd(c)` keeps a prefix, removes only copies of `c`, and leaves no `c` at the end |
| DotNet.Wrap32 | src/SkyTrackerMcp.Http.OpenSkyNetwork/Auth/TokenService.cs:64 | Unchecked `int` subtraction agrees with the exact result modulo 2^32, and equals it whenever the exact result fits in 32 bits |
| TokenService.TokenFormCarriesCredentials | src/SkyTrackerMcp.Http.OpenSkyNetwork/Auth/TokenService.cs:42-47 | The token request form carries exactly `grant_type=client_credentials`, `client_id` and `client_secret`, in that order, with the configured values |
| TokenService.AddSeconds | src/SkyTrackerMcp.Http.OpenSkyNetwork/Auth/TokenService.cs:64 | Adding seconds to a `DateTime` succeeds exactly when the result stays within `DateTime`'s range, and otherwise throws `ArgumentOutOfRangeException` |
| TokenService.AddSecondsRoundTrip | src/SkyTrackerMcp.Http.OpenSkyNetwork/Auth/TokenService.cs:64 | Adding seconds and then subtracting them returns the original time, and adding more seconds never gives an earlier time |
| TokenService.ExpiryOf | src/SkyTrackerMcp.Http.OpenSkyNetwork/Auth/TokenService.cs:64 | With the subtraction done exactly (the corrected arithmetic, see Findings), the recorded expiry is 300 seconds before the issuer's declared end of life, and lies at or before the issuance time when the declared lifetime is at most 300 seconds |
| TokenService.GetAccessToken | src/SkyTrackerMcp.Http.OpenSkyNetwork/Auth/TokenService.cs:28-79 | On a cache hit it returns the cached token with no request and an unchanged cache; otherwise it sends the client-credentials request; every returned token is non-empty and is what the cache then holds; every failure keeps the expiry, and every failure other than an out-of-range expiry keeps the whole cache |
| TokenService.CacheHitIff | src/SkyTrackerMcp.Http.OpenSkyNetwork/Auth/TokenService.cs:34-38 | No request is sent if and only if the cached token is non-empty and the clock is strictly before the expiry |
| TokenService.InitialAlwaysFetches | src/SkyTrackerMcp.Http.OpenSkyNetwork/Auth/TokenService.cs:14-15 | The initial state (no token, expiry `DateTime.MinValue`) sends a request at every clock value |
| TokenService.SuccessfulFetchCaches | src/SkyTrackerMcp.Http.OpenSkyNetwork/Auth/TokenService.cs:62-64 | After a successful fetch the cache holds the response's access token and, with the corrected exact subtraction (see Findings), the expiry `clock + ExpiresIn - 300` seconds |
| TokenService.FailedFetchLeavesCache | src/SkyTrackerMcp.Http.OpenSkyNetwork/Auth/TokenService.cs:52-79 | An HTTP failure and a JSON failure surface as `InvalidOperationException` wrapping the cause, a timeout propagates unchanged, a null response or empty token raises an unwrapped `InvalidOperationException`, and any other exception out of the client (such as one for an unusable `AuthUrl`) goes through the same two `catch` clauses; the cache is unchanged on each of these |
| TokenService.ExpiryOverflowKeepsNewToken | src/SkyTrackerMcp.Http.OpenSkyNetwork/Auth/TokenService.cs:62-64 | When computing the expiry leaves `DateTime`'s range, the new token has already replaced the old one while the old expiry stays; the same exception raised by the client leaves the cache alone |
| TokenService.NoOverflowAwayFromDateTimeBounds | src/SkyTrackerMcp.Http.OpenSkyNetwork/Auth/TokenService.cs:64 | When the clock is more than 2^31 + 300 seconds from both ends of `DateTime`'s range, the expiry cannot overflow |
| TokenService.ExpiryBuffer | src/SkyTrackerMcp.Http.OpenSkyNetwork/Auth/TokenService.cs:64 | A token declared valid for 3600 seconds at time T is served from the cache before T + 3300 s and refreshed from T + 3300 s on |
| TokenService.ShortLifetimeForcesRefresh | src/SkyTrackerMcp.Http.OpenSkyNetwork/Auth/TokenService.cs:34-64 | With the corrected exact subtraction (see Findings), after fetching a token declared valid for at most 300 seconds, any later call at or after the issuance time sends a new request |
| TokenService.CacheServesUntilExpiry | src/SkyTrackerMcp.Http.OpenSkyNetwork/Auth/TokenService.cs:34-38 | Across any sequence of calls made before the expiry, a cached non-empty token answers every call with no request and no change to the cache |
| TokenService.OneRequestPerValidityWindow | src/SkyTrackerMcp.Http.OpenSkyNetwork/Auth/TokenService.cs:30-68 | Starting from the initial state, a successful first call followed by calls made before the new expiry sends exactly one request in total, and every call returns the same token |
| TokenService.WrappedExpiryOutlivesNegativeLifetime | src/SkyTrackerMcp.Http.OpenSkyNetwork/Auth/TokenService.cs:64 | As written, a declared lifetime of `int.MinValue` gives an expiry about 68 years ahead, so the token would count as fresh (see Findings) |
| SkyTrackingService.NewService | src/SkyTrackerMcp.Http.OpenSkyNetwork/Services/SkyTrackingService.cs:28 | `_baseUrl` is a prefix of the configured URL, only `'/'` characters are removed, and it does not end in `'/'` |
| SkyTrackingService.StatesAllUrlShape | src/SkyTrackerMcp.Http.OpenSkyNetwork/Services/SkyTrackingService.cs:39 | The request URL is the configured URL without its trailing slashes, followed by exactly one slash and `states/all` |
| SkyTrackingService.StatesAllUrlIgnoresTrailingSlashes | src/SkyTrackerMcp.Http.OpenSkyNetwork/Services/SkyTrackingService.cs:28 | Adding any number of trailing slashes to the configured URL does not change the request URL |
| SkyTrackingService.SetAuthorizationHeader | src/SkyTrackerMcp.Http.OpenSkyNetwork/Services/SkyTrackingService.cs:82-98 | A token becomes a `Bearer` header; a token failure is swallowed and leaves the service as it was |
| SkyTrackingService.DecodeStates | src/SkyTrackerMcp.Http.OpenSkyNetwork/Services/SkyTrackingService.cs:51-59 | The decoded list never has more entries than there are rows, and the only way decoding fails is a `NullReferenceException` |
| SkyTrackingService.DecodeStatesFailsIffNullRow | src/SkyTrackerMcp.Http.OpenSkyNetwork/Services/SkyTrackingService.cs:52-54 | Decoding the rows fails if and only if some row is null |
| SkyTrackingService.DecodeStatesSnoc | src/SkyTrackerMcp.Http.OpenSkyNetwork/Services/SkyTrackingService.cs:52-58 | One more row fails the list if it is null, and otherwise appends exactly that row's record, or nothing |
| SkyTrackingService.DecodeStatesLoop | src/SkyTrackerMcp.Http.OpenSkyNetwork/Services/SkyTrackingService.cs:51-59 | The `foreach` loop computes exactly the in-order decoding with refused rows dropped |
| SkyTrackingService.DecodeStatesAppend | src/SkyTrackerMcp.Http.OpenSkyNetwork/Services/SkyTrackingService.cs:51-59 | Decoding two runs of rows gives the concatenation of their decodings, so order is kept; a null row in either run fails the whole |
| SkyTrackingService.DecodeStatesSingle | src/SkyTrackerMcp.Http.OpenSkyNetwork/Services/SkyTrackingService.cs:54-58 | A single non-null row contributes exactly its own decoding |
| SkyTrackingService.Decoded | src/SkyTrackerMcp.Http.OpenSkyNetwork/Services/SkyTrackingService.cs:54-58 | One row contributes at most one record, and none when it is shorter than 17 elements |
| SkyTrackingService.ShortRowNeverContributes | src/SkyTrackerMcp.Http.OpenSkyNetwork/Services/SkyTrackingService.cs:54-57 | Removing a non-null row shorter than 17 elements never changes the result |
| SkyTrackingService.DecodeStatesMembership | src/SkyTrackerMcp.Http.OpenSkyNetwork/Services/SkyTrackingService.cs:51-59 | A record is in the result if and only if some row decodes to it |
| Exceptions.WrapCaught | src/SkyTrackerMcp.Http.OpenSkyNetwork/Services/SkyTrackingService.cs:65-79 | A transport failure and a JSON failure each become an `InvalidOperationException` that wraps the cause and carries the message for that step; exactly these two are wrapped and every other exception is rethrown unchanged. The token service's catch clauses (`Auth/TokenService.cs:70-79`) are the same function with their own two messages |
| SkyTrackingService.GetActiveFlights | src/SkyTrackerMcp.Http.OpenSkyNetwork/Services/SkyTrackingService.cs:31-80 | The query always fetches `_baseUrl + "/states/all"`, never changes `_baseUrl`, and fails exactly when the fetch or the decoding fails; it leaves the token cache as the token call left it; a token sets the `Bearer` header to that token, and a token failure leaves the service as it was |
| SkyTrackingService.TokenFailureIsSwallowed | src/SkyTrackerMcp.Http.OpenSkyNetwork/Services/SkyTrackingService.cs:84-96 | For the same answer of the flight endpoint, whatever the credential endpoint answers, the query fetches the same URL and gives the same flights or error; after a token failure the header is left as it was |
| SkyTrackingService.MissingStatesGiveEmptyList | src/SkyTrackerMcp.Http.OpenSkyNetwork/Services/SkyTrackingService.cs:45-49 | A null body or a null `states` array gives an empty list, not an error |
| SkyTrackingService.QueryErrors | src/SkyTrackerMcp.Http.OpenSkyNetwork/Services/SkyTrackingService.cs:65-79 | The query surfaces transport failures as "Failed to fetch…" and JSON failures as "Failed to parse…", a timeout unchanged, any other exception out of the client (such as one for a URL that is not absolute) as the same `catch` clauses map it, and, when rows are present, an error exactly when some row is null |
| SkyTrackingService.QueryReturnsDecodedRows | src/SkyTrackerMcp.Http.OpenSkyNetwork/Services/SkyTrackingService.cs:51-63 | With non-null rows present, the query returns exactly their in-order decoding, with at most one flight per row |

## Left out

- Concurrency: the `SemaphoreSlim` around the token cache. One call is modelled as a sequential transition. The "one request per validity window" property is stated for consecutive calls only.
- HTTP, JSON deserialisation, logging and `DateTime.UtcNow`. These are inputs: a fetch outcome for each endpoint, and clock readings. `GetAccessTokenAsync` reads the clock twice, once for the cache check and once for the expiry; the second reading travels with the deserialised response.
- `ToString()` on deserialised elements, and `long`/`int`/`double.TryParse`. They run with the current culture and are parameters of `Runtime`. In particular, the model does not assume what a JSON boolean stringifies to, so it does not claim that `onGround` can ever be true for real responses.
- Floating point: `double` values are only carried, never computed with.
- The percent-encoding done by `FormUrlEncodedContent`. The form is modelled as its ordered list of name/value pairs.
- Which exceptions `HttpClient` and `JsonSerializer` can throw, and for which inputs: any exception other than the transport, timeout and JSON ones is the single `Raised` outcome, whatever its cause.
- The `_tokenService != null` guard in `SetAuthorizationHeaderAsync`. The service is always constructed with a token service, so the model always asks it.
- `OpenSkyStatesResponse.Time`: carried in the response record, but nothing reads it.
- `GetFlightByIcaoAsync` and `GetFlightsByAreaAsync`: they are declared in `ISkyTrackingService.cs` but have no implementation. `TooManyFlightsException` is never thrown. So there is no by-identifier query, no bounding-box URL and no 500-row ceiling.
- The tool-layer pass-throughs (`SkyTrackerTools.cs`), the ICAO HTML lookup (`IcaoAircraftInformationTools.cs`), bootstrap (`Program.cs`), and dependency wiring with its 30-second timeouts (`ServiceCollectionExtensions.cs`). The timeout appears only as the `Canceled`/`TimedOut` outcome, which surfaces as `TaskCanceledException`.
- TokenService.ExpiryOf: holds for the corrected exact subtraction only; the code's wrapping 32-bit `ExpiresIn - 300` breaks it for declared lifetimes below `int.MinValue + 300` (see Findings).
- TokenService.SuccessfulFetchCaches: the stated expiry uses the corrected exact subtraction only; as written it wraps for declared lifetimes below `int.MinValue + 300` (see Findings).
- TokenService.ShortLifetimeForcesRefresh: holds for the corrected exact subtraction only; as written, a declared lifetime below `int.MinValue + 300` wraps to a far-future expiry and the token is served from the cache (see Findings).
- TokenService.GetAccessToken: computes the expiry with the corrected exact subtraction (`ExpiryOf`), not the wrapping 32-bit one the code performs. The two differ only for declared lifetimes below `int.MinValue + 300` (see Findings).

## Findings

| source | as written | input that shows it | evidently intended | confidence | as-written member | corrected member |
|---|---|---|---|---|---|---|
| src/SkyTrackerMcp.Http.OpenSkyNetwork/Auth/TokenService.cs:64 | `tokenResponse.ExpiresIn - 300` is unchecked 32-bit `int` arithmetic, so it wraps for lifetimes below `int.MinValue + 300` | `expires_in = -2147483648` received at 2025-01-01: the expiry becomes about 68 years later, and the token is served from the cache | the expiry lies 300 seconds before the declared end of life, so a lifetime of at most 300 seconds forces a refresh | low; not executed; it needs the issuer to send an absurd lifetime and the project to build without overflow checking | TokenService.ExpiryAsWritten, TokenService.WrappedExpiryOutlivesNegativeLifetime | TokenService.ExpiryOf, TokenService.ShortLifetimeForcesRefresh |
