/** The .NET exceptions the modelled code throws, catches or wraps. */
module Exceptions {
  import opened Wrappers

  datatype Exception =
    /** Transport failure or a non-success status (`EnsureSuccessStatusCode`). */
    | HttpRequestException
    /** A response body that is not valid JSON for the target type. */
    | JsonException
    /** `HttpClient`'s request timeout. */
    | TaskCanceledException
    /** `DateTime.AddSeconds` leaving the range of `DateTime`. */
    | ArgumentOutOfRangeException
    /** Dereferencing `null`. */
    | NullReferenceException
    /** Any other exception, raised by code outside this model (for instance an element's `ToString()`). */
    | ForeignException(name: string)
    | InvalidOperationException(message: string, inner: Option<Exception>)

  /** The `catch` clauses both services put around their HTTP round trip: a
      transport failure and a JSON failure are each wrapped in an
      `InvalidOperationException` carrying the message for that step, and
      every other exception leaves unchanged. */
  function WrapCaught(e: Exception, httpMessage: string, jsonMessage: string): (r: Exception)
    ensures r.InvalidOperationException? && r.inner == Some(e) <==> e == HttpRequestException || e == JsonException
    ensures e == HttpRequestException ==> r.message == httpMessage
    ensures e == JsonException ==> r.message == jsonMessage
    ensures e != HttpRequestException && e != JsonException ==> r == e
  {
    match e
    case HttpRequestException => InvalidOperationException(httpMessage, Some(e))
    case JsonException => InvalidOperationException(jsonMessage, Some(e))
    case _ => e
  }
}
