/** What the web client's handlers get back from the HTTP client
    (`request(params, callback)`), and the error texts they build from a
    failed connection. */
module HttpClient {
  import opened Js
  import opened Json

  /** The request the handler hands to the HTTP client. */
  datatype HttpRequest = HttpRequest(verb: string, uri: string, body: Option<Bytes>, contentType: Option<string>)

  /** What the callback receives: a transport error (and no response), or a
      response with its status code and optional body. */
  datatype Outcome<B> = TransportError(error: JsError) | Response(statusCode: int, body: Option<B>)

  const ConnRefused: string := "ECONNREFUSED"

  /** The name the web client gives the photo-storage service in its
      connection errors. */
  const StorageService: string := "photo-storage"

  /** The error text written for a refused connection to `service`. */
  function ConnectionRefusedJson(service: string, e: JsError): (j: Json)
    ensures j.JObj? && |j.members| == 2
    ensures j.members[0] == Member("code", e.code)
    ensures j.members[1] == Member("message", Some("Could not connect to " + service + " service at " + Interpolate(e.address) + ":" + Interpolate(e.port)))
  {
    JObj([
      Member("code", e.code),
      Member("message", Some("Could not connect to " + service + " service at " + Interpolate(e.address) + ":" + Interpolate(e.port)))])
  }

  /** The error text the handlers write when a failed answer has no body. */
  function InternalServerErrorJson(): Json {
    JObj([Member("code", Some("InternalServerError"))])
  }

  /** The error text written for any other transport error: its name and
      message. */
  function OtherTransportErrorJson(e: JsError): Json {
    JObj([Member("name", e.name), Member("message", e.message)])
  }

  /** A transport error as the handlers serialise it: a refused connection
      names the service and its address, anything else keeps its own name
      and message. */
  function TransportErrorJson(service: string, e: JsError): (j: Json)
    ensures e.code == Some(ConnRefused) ==> j == ConnectionRefusedJson(service, e)
    ensures e.code != Some(ConnRefused) ==> j == OtherTransportErrorJson(e)
  {
    if e.code == Some(ConnRefused) then ConnectionRefusedJson(service, e) else OtherTransportErrorJson(e)
  }

  /** The `err` query parameter of a redirect to `/?err=..`. */
  function ErrParam(location: string): (r: Option<string>)
    ensures r.Some? ==> location == "/?err=" + r.value
  {
    if |location| >= 6 && location[..6] == "/?err=" then Some(location[6..]) else None
  }

  lemma ErrParamOf(err: string)
    ensures ErrParam("/?err=" + err) == Some(err)
  {
    assert ("/?err=" + err)[..6] == "/?err=";
    assert ("/?err=" + err)[6..] == err;
  }

  /** A redirect that carries a serialised error gives back, to whoever
      parses its `err` parameter, exactly the fields that were defined. */
  lemma SerialisedErrorRecovered(j: Json)
    ensures ErrParam("/?err=" + Stringify(j)).Some?
    ensures Parse(ErrParam("/?err=" + Stringify(j)).value) == Some(Normalize(j))
  {
    ErrParamOf(Stringify(j));
    ParseStringify(j);
  }
}
