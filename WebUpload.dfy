/** The web client's upload step (`middleware/upload.js`): it posts the
    filtered image to the photo-storage service and always ends in exactly
    one redirect, home on success and home with an `err` parameter
    otherwise. Unlike the greyscale step, every error it reports, the
    service's own answer included, goes through JSON.stringify. */
module WebUpload {
  import opened Js
  import opened Json
  import opened HttpClient
  import opened FilterGreyscale

  /** The request to the storage service: a POST of the edited image, typed
      with the original image's MIME type, to
      `<photoApiUrl>/bucket/<s3Bucket>/photos/<image name>`. An unset bucket
      id is interpolated as `undefined`. */
  function UploadRequest(photoApiUrl: string, s3Bucket: Option<string>, image: Image, editedImage: Option<Bytes>): (q: HttpRequest)
    ensures q.verb == "POST"
    ensures q.uri == photoApiUrl + "/bucket/" + Interpolate(s3Bucket) + "/photos/" + image.name
    ensures q.body == editedImage && q.contentType == Some(image.mimeType)
  {
    HttpRequest("POST", photoApiUrl + "/bucket/" + Interpolate(s3Bucket) + "/photos/" + image.name, editedImage, Some(image.mimeType))
  }

  /** The `redirect` helper: home with the error when one is given (and
      truthy), plain home otherwise. */
  function RedirectLocation(err: Option<string>): (loc: string)
    ensures Truthy(err) ==> loc == "/?err=" + err.value
    ensures !Truthy(err) ==> loc == "/"
  {
    if Truthy(err) then "/?err=" + err.value else "/"
  }

  /** A redirect to plain home carries no error; a redirect with a truthy
      error carries exactly that error. */
  lemma RedirectCarriesError(err: Option<string>)
    ensures ErrParam(RedirectLocation(err)).Some? <==> Truthy(err)
    ensures Truthy(err) ==> ErrParam(RedirectLocation(err)) == err
  {
    if Truthy(err) {
      ErrParamOf(err.value);
    }
  }

  /** How JavaScript reads the response body in `if (body)`: an empty
      string is falsy, an object never is. */
  predicate TruthyBody(b: Option<Json>) {
    b.Some? && (b.value.JStr? ==> b.value.text != "")
  }

  function UploadFailedJson(): Json {
    JObj([Member("code", Some("UploadFailed")), Member("message", Some("Invalid response from photo-storage service"))])
  }

  /** The error, if any, the callback redirects with, given what the HTTP
      client reported, before it is serialised. */
  function UploadError(o: Outcome<Json>): (err: Option<Json>)
    ensures o.TransportError? ==> err == Some(TransportErrorJson(StorageService, o.error))
    ensures o.Response? && o.statusCode == 200 && TruthyBody(o.body) ==> err == None
    ensures o.Response? && o.statusCode == 200 && !TruthyBody(o.body) ==> err == Some(UploadFailedJson())
    ensures o.Response? && o.statusCode != 200 && TruthyBody(o.body) ==> err == o.body
    ensures o.Response? && o.statusCode != 200 && !TruthyBody(o.body) ==> err == Some(InternalServerErrorJson())
  {
    match o
    case TransportError(e) => Some(TransportErrorJson(StorageService, e))
    case Response(status, body) =>
      if status == 200 then
        (if TruthyBody(body) then None else Some(UploadFailedJson()))
      else if TruthyBody(body) then body
      else Some(InternalServerErrorJson())
  }

  /** The redirect's error text: the error's JSON.stringify, which is
      never empty and parses back to the error without its undefined
      members. */
  function UploadErr(o: Outcome<Json>): (err: Option<string>)
    ensures err.Some? <==> UploadError(o).Some?
    ensures err.Some? ==> err.value != "" && Parse(err.value) == Some(Normalize(UploadError(o).value))
  {
    match UploadError(o)
    case None => None
    case Some(j) =>
      StringifyNonEmpty(j);
      ParseStringify(j);
      Some(Stringify(j))
  }

  /** The handler: one request to the storage service and the one redirect
      that answers it. */
  function Upload(photoApiUrl: string, s3Bucket: Option<string>, image: Image, editedImage: Option<Bytes>,
                  send: HttpRequest -> Outcome<Json>): (r: (HttpRequest, string))
    ensures r.0 == UploadRequest(photoApiUrl, s3Bucket, image, editedImage)
    ensures r.1 == RedirectLocation(UploadErr(send(r.0)))
  {
    var q := UploadRequest(photoApiUrl, s3Bucket, image, editedImage);
    (q, RedirectLocation(UploadErr(send(q))))
  }

  // ---------------------------------------------------------------------
  // What the redirect says

  /** The upload redirects to plain home exactly when the service answered
      200 with a (truthy) body; every other outcome carries an error. */
  lemma HomeIffSucceeded(o: Outcome<Json>)
    ensures RedirectLocation(UploadErr(o)) == "/" <==> o.Response? && o.statusCode == 200 && TruthyBody(o.body)
  {
    if UploadError(o).Some? {
      StringifyNonEmpty(UploadError(o).value);
    }
  }

  /** Every error redirect can be parsed back field by field. When the
      storage service answered with a body, that body is what is read
      back (without its undefined members). */
  lemma ErrorRedirectDecodes(o: Outcome<Json>)
    requires RedirectLocation(UploadErr(o)) != "/"
    ensures var err := ErrParam(RedirectLocation(UploadErr(o)));
      && err.Some? && Parse(err.value) == Some(Normalize(UploadError(o).value))
      && (o.Response? && o.statusCode != 200 && TruthyBody(o.body) ==> Parse(err.value) == Some(Normalize(o.body.value)))
      && (o.TransportError? && o.error.code == Some(ConnRefused) ==>
            Parse(err.value) == Some(ConnectionRefusedJson(StorageService, o.error)))
  {
    var j := UploadError(o).value;
    StringifyNonEmpty(j);
    RedirectCarriesError(UploadErr(o));
    SerialisedErrorRecovered(j);
    if o.TransportError? && o.error.code == Some(ConnRefused) {
      PresentOfAllPresent(ConnectionRefusedJson(StorageService, o.error).members);
    }
  }

  /** A body that arrives as text (the HTTP client's default) is passed on
      quoted as a JSON string, not as the object it may spell. */
  lemma TextBodyArrivesQuoted(status: int, text: string)
    requires status != 200 && text != ""
    ensures var err := ErrParam(RedirectLocation(UploadErr(Response(status, Some(JStr(text))))));
      err.Some? && Parse(err.value) == Some(JStr(text))
  {
    StringifyNonEmpty(JStr(text));
    ErrorRedirectDecodes(Response(status, Some(JStr(text))));
  }

  /** The greyscale step passes a failed answer's text on as it is; the
      upload step serialises it. For the same non-200 text answer the two
      redirects differ. */
  lemma FilterAndUploadDiffer(status: int, bytes: Bytes, text: Bytes -> string)
    requires status != 200 && text(bytes) != ""
    ensures FilterGreyscale.Classify(Response(status, Some(bytes)), text)
      != Redirect(RedirectLocation(UploadErr(Response(status, Some(JStr(text(bytes)))))))
  {
    var t := text(bytes);
    StringifyNonEmpty(JStr(t));
    EscapeLength(t);
    assert |RedirectLocation(UploadErr(Response(status, Some(JStr(t)))))| == 6 + |Escape(t)| + 2;
  }
}
