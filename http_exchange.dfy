/**
 * The boundary to UnityWebRequest.  A backend does not send anything itself
 * here: it builds the POST it would send, and the response the network gives
 * back is an input.  A null download text or error text is "".
 */
module HttpExchange {
  import opened Wrappers

  /** UnityWebRequest.Result once the request has completed. */
  datatype RequestResult = Success | ConnectionError | ProtocolError | DataProcessingError

  datatype Response = Response(result: RequestResult, responseCode: int, error: string, body: string)

  datatype Header = Header(name: string, value: string)

  /** A POST as it leaves the client: URL, headers in the order they are set, and
      the payload object before JsonUtility serializes it. */
  datatype Post<B> = Post(url: string, headers: seq<Header>, payload: B)

  /** The two results the backends report as HTTP failures; every other result
      goes on to read the body. */
  predicate IsTransportError(r: Response)
  {
    r.result == ConnectionError || r.result == ProtocolError
  }

  /** The value of the first header with the given name. */
  function Lookup(headers: seq<Header>, name: string): (r: Option<string>)
    ensures r.Some? <==> exists i :: 0 <= i < |headers| && headers[i].name == name
  {
    if headers == [] then None
    else if headers[0].name == name then Some(headers[0].value)
    else
      var r := Lookup(headers[1..], name);
      assert forall i :: 1 <= i < |headers| ==> headers[i] == headers[1..][i - 1];
      r
  }

  const JsonContentType: Header := Header("Content-Type", "application/json")
}
