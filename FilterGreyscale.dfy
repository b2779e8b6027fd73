/** The web client's greyscale step (`middleware/filterGreyscale.js`): it
    posts the uploaded image to the photo-filter service and either keeps
    the filtered image for the next handler or redirects home with an
    error. */
module FilterGreyscale {
  import opened Js
  import opened Json
  import opened HttpClient

  /** The image a previous handler put in `res.locals.image`. */
  datatype Image = Image(name: string, mimeType: string, buffer: Bytes)

  /** How the handler ends: keep the filtered image and call `next()`, or
      redirect. */
  datatype FilterAction = Continue(edited: Bytes) | Redirect(location: string)

  const FilterService: string := "photo-filter"

  /** The request to the filter service: a POST of the image's bytes, typed
      with its MIME type, to `<filterApiUrl>/greyscale`. */
  function GreyscaleRequest(filterApiUrl: string, image: Image): (q: HttpRequest)
    ensures q.verb == "POST"
    ensures q.uri == filterApiUrl + "/greyscale"
    ensures q.body == Some(image.buffer) && q.contentType == Some(image.mimeType)
  {
    HttpRequest("POST", filterApiUrl + "/greyscale", Some(image.buffer), Some(image.mimeType))
  }

  function FilterFailedJson(): Json {
    JObj([Member("code", Some("FilterFailed")), Member("message", Some("Invalid response from photo-filter service"))])
  }

  /** The `redirect` helper: home with the error, whatever it is. */
  function ErrorRedirect(err: string): (a: FilterAction)
    ensures a.Redirect? && ErrParam(a.location) == Some(err)
  {
    ErrParamOf(err);
    Redirect("/?err=" + err)
  }

  /** The handler's decision on the filter service's answer. A body is
      present whenever the callback gets a buffer, even an empty one.
      `text` decodes a buffer to a string (`buffer.toString()`). */
  function Classify(o: Outcome<Bytes>, text: Bytes -> string): (a: FilterAction)
    ensures o.TransportError? ==> a == ErrorRedirect(Stringify(TransportErrorJson(FilterService, o.error)))
    ensures o.Response? && o.statusCode != 200 && o.body.Some? ==> a == ErrorRedirect(text(o.body.value))
    ensures o.Response? && o.statusCode != 200 && o.body.None? ==>
      a == ErrorRedirect(Stringify(InternalServerErrorJson()))
    ensures o.Response? && o.statusCode == 200 && o.body.Some? ==> a == Continue(o.body.value)
    ensures o.Response? && o.statusCode == 200 && o.body.None? ==>
      a == ErrorRedirect(Stringify(FilterFailedJson()))
    ensures a.Continue? <==> o.Response? && o.statusCode == 200 && o.body.Some?
  {
    match o
    case TransportError(e) => ErrorRedirect(Stringify(TransportErrorJson(FilterService, e)))
    case Response(status, body) =>
      if status != 200 then
        (match body
         case Some(b) => ErrorRedirect(text(b))
         case None => ErrorRedirect(Stringify(InternalServerErrorJson())))
      else
        (match body
         case Some(b) => Continue(b)
         case None => ErrorRedirect(Stringify(FilterFailedJson())))
  }

  /** `res.locals`: the image being processed and, once filtered, the
      edited image the upload step sends on. */
  class ResponseLocals {
    const image: Image
    var editedImage: Option<Bytes>

    constructor (image: Image)
      ensures this.image == image && editedImage == None
    {
      this.image := image;
      editedImage := None;
    }

    /** Run the handler: one request to the filter service, then either the
        filtered image is kept or the locals stay as they were. */
    method FilterGreyscale(filterApiUrl: string, send: HttpRequest -> Outcome<Bytes>, text: Bytes -> string)
      returns (sent: HttpRequest, action: FilterAction)
      modifies this`editedImage
      ensures sent == GreyscaleRequest(filterApiUrl, image)
      ensures action == Classify(send(sent), text)
      ensures action.Continue? ==> editedImage == Some(action.edited)
      ensures action.Redirect? ==> editedImage == old(editedImage)
    {
      sent := GreyscaleRequest(filterApiUrl, image);
      var outcome := send(sent);
      action := Classify(outcome, text);
      if action.Continue? {
        editedImage := Some(action.edited);
      }
    }
  }

  // ---------------------------------------------------------------------
  // What a redirect carries

  /** Every error the handler serialises itself can be parsed back from the
      redirect's `err` parameter, field by field; only a non-200 answer with
      a body is passed on as the service's own text. */
  lemma RedirectErrorDecodes(o: Outcome<Bytes>, text: Bytes -> string)
    requires Classify(o, text).Redirect?
    requires !(o.Response? && o.statusCode != 200 && o.body.Some?)
    ensures var err := ErrParam(Classify(o, text).location);
      err.Some? && Parse(err.value).Some? && Parse(err.value).value.JObj?
  {
    match o
    case TransportError(e) =>
      SerialisedErrorRecovered(TransportErrorJson(FilterService, e));
    case Response(status, body) =>
      if status != 200 {
        SerialisedErrorRecovered(InternalServerErrorJson());
      } else {
        SerialisedErrorRecovered(FilterFailedJson());
      }
  }

  /** A refused connection is reported with its own code and a message
      naming the filter service's address and port, and whoever parses the
      redirect reads both back. */
  lemma RefusedConnectionDecodes(e: JsError, text: Bytes -> string)
    requires e.code == Some(ConnRefused)
    ensures var err := ErrParam(Classify(TransportError(e), text).location);
      && err.Some?
      && Parse(err.value) == Some(ConnectionRefusedJson(FilterService, e))
  {
    var j := ConnectionRefusedJson(FilterService, e);
    SerialisedErrorRecovered(j);
    PresentOfAllPresent(j.members);
  }
}
