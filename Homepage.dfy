/** The web client's home page (`middleware/homepage.js`): an error passed
    in the query is shown at once; otherwise the photo list is fetched from
    the photo-storage service and the page shows its URLs or an error. */
module Homepage {
  import opened Js
  import opened Json
  import opened HttpClient

  /** What the page shows as `err`: a text, or the HTTP client's error
      object itself. */
  datatype ErrValue = ErrText(text: string) | ErrObject(error: JsError)

  /** The part of the context that varies: an error, or the photo URLs
      (`None` is the `null` of a missing bucket). */
  datatype Shown = ShowErr(err: ErrValue) | ShowUrls(urls: Option<seq<string>>)

  /** The template's context: the bucket id merged with what is shown. */
  datatype Context = Context(bucket: Option<string>, shown: Shown)

  datatype Render = Render(view: string, ctx: Context)

  /** What JSON.parse makes of a body: an exception, or a value whose
      `photos` is given when the value and its `photos` are both truthy. */
  datatype Parsed = Unparseable | ParsedBody(photos: Option<seq<string>>)

  const NoResponseBody: string := "No response body"

  /** The photo list's address: `<photoApiUrl>/bucket/<s3Bucket>/photos`. */
  function PhotosUrl(photoApiUrl: string, s3Bucket: Option<string>): (u: string)
    ensures u == photoApiUrl + "/bucket/" + Interpolate(s3Bucket) + "/photos"
  {
    photoApiUrl + "/bucket/" + Interpolate(s3Bucket) + "/photos"
  }

  /** The error text for a body JSON.parse refused. */
  function ParseErrorJson(body: string): Json {
    JObj([Member("code", Some("ParseError")), Member("message", Some("Could not parse: " + body))])
  }

  /** What the page shows for the photo-storage service's answer. The body
      is parsed before its status is looked at. */
  function Classify(o: Outcome<string>, parse: string -> Parsed): (s: Shown)
    ensures o.TransportError? && o.error.code == Some(ConnRefused) ==>
      s == ShowErr(ErrText(Stringify(ConnectionRefusedJson(StorageService, o.error))))
    ensures o.TransportError? && o.error.code != Some(ConnRefused) ==> s == ShowErr(ErrObject(o.error))
    ensures o.Response? && !Truthy(o.body) ==> s == ShowErr(ErrText(NoResponseBody))
    ensures o.Response? && Truthy(o.body) && parse(o.body.value).Unparseable? ==>
      s == ShowErr(ErrText(Stringify(ParseErrorJson(o.body.value))))
    ensures o.Response? && Truthy(o.body) && parse(o.body.value).ParsedBody? ==>
      var p := parse(o.body.value).photos;
      && (o.statusCode == 200 && p.Some? ==> s == ShowUrls(p))
      && (!(o.statusCode == 200 && p.Some?) && o.statusCode == 404 ==> s == ShowUrls(None))
      && (!(o.statusCode == 200 && p.Some?) && o.statusCode != 404 ==> s == ShowErr(ErrText(o.body.value)))
  {
    match o
    case TransportError(e) =>
      if e.code == Some(ConnRefused) then ShowErr(ErrText(Stringify(ConnectionRefusedJson(StorageService, e))))
      else ShowErr(ErrObject(e))
    case Response(status, body) =>
      if !Truthy(body) then ShowErr(ErrText(NoResponseBody))
      else
        match parse(body.value)
        case Unparseable => ShowErr(ErrText(Stringify(ParseErrorJson(body.value))))
        case ParsedBody(photos) =>
          if status == 200 && photos.Some? then ShowUrls(photos)
          else if status == 404 then ShowUrls(None)
          else ShowErr(ErrText(body.value))
  }

  /** The handler: the photo list's address if it was requested, and the
      page rendered. A truthy `err` in the query is shown without any
      request. */
  function Homepage(photoApiUrl: string, s3Bucket: Option<string>, queryErr: Option<string>,
                    get: string -> Outcome<string>, parse: string -> Parsed): (r: (Option<string>, Render))
    ensures r.1.view == "index" && r.1.ctx.bucket == s3Bucket
    ensures Truthy(queryErr) ==> r.0 == None && r.1.ctx.shown == ShowErr(ErrText(queryErr.value))
    ensures !Truthy(queryErr) ==>
      r.0 == Some(PhotosUrl(photoApiUrl, s3Bucket)) && r.1.ctx.shown == Classify(get(r.0.value), parse)
  {
    if Truthy(queryErr) then
      (None, Render("index", Context(s3Bucket, ShowErr(ErrText(queryErr.value)))))
    else
      var url := PhotosUrl(photoApiUrl, s3Bucket);
      (Some(url), Render("index", Context(s3Bucket, Classify(get(url), parse))))
  }

  // ---------------------------------------------------------------------
  // Properties of the page

  /** An error in the query decides the page: neither the photo-storage
      service nor the parser is consulted. */
  lemma QueryErrSkipsRequest(photoApiUrl: string, s3Bucket: Option<string>, queryErr: Option<string>,
                             get1: string -> Outcome<string>, get2: string -> Outcome<string>,
                             parse1: string -> Parsed, parse2: string -> Parsed)
    requires Truthy(queryErr)
    ensures Homepage(photoApiUrl, s3Bucket, queryErr, get1, parse1) == Homepage(photoApiUrl, s3Bucket, queryErr, get2, parse2)
  {
  }

  /** A body that cannot be parsed is reported whatever the status code,
      and the report reads back as its code and message. */
  lemma ParseErrorBeforeStatus(status1: int, status2: int, body: string, parse: string -> Parsed)
    requires body != "" && parse(body).Unparseable?
    ensures Classify(Response(status1, Some(body)), parse) == Classify(Response(status2, Some(body)), parse)
    ensures var s := Classify(Response(status1, Some(body)), parse);
      s.ShowErr? && s.err.ErrText? && Parse(s.err.text) == Some(ParseErrorJson(body))
  {
    ParseStringify(ParseErrorJson(body));
    PresentOfAllPresent(ParseErrorJson(body).members);
  }

  /** A refused connection is shown as a text that reads back as its code
      and a message naming the storage service's address and port. */
  lemma RefusedConnectionDecodes(e: JsError, parse: string -> Parsed)
    requires e.code == Some(ConnRefused)
    ensures var s := Classify(TransportError(e), parse);
      s.ShowErr? && s.err.ErrText? && Parse(s.err.text) == Some(ConnectionRefusedJson(StorageService, e))
  {
    var j := ConnectionRefusedJson(StorageService, e);
    ParseStringify(j);
    PresentOfAllPresent(j.members);
  }

  /** URLs are shown only for a 200 answer whose parsed body lists them,
      and then exactly that list in its order. */
  lemma UrlsOnlyFromListing(o: Outcome<string>, parse: string -> Parsed, urls: seq<string>)
    ensures Classify(o, parse) == ShowUrls(Some(urls)) <==>
      o.Response? && o.statusCode == 200 && Truthy(o.body) && parse(o.body.value) == ParsedBody(Some(urls))
  {
  }
}
