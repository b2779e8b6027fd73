/** The photo-storage service's request pipeline (`server.js`): the raw
    body parser restricted to three image types, the handler that turns a
    too-large body into 413, the routes in registration order, and the
    catch-all 404. */
module StorageServer {
  import opened Js
  import opened Json
  import opened ObjectStore
  import opened S3Store
  import opened StorageMiddleware

  // ---------------------------------------------------------------------
  // Content types

  const ValidMimeTypes: seq<string> := ["image/bmp", "image/jpeg", "image/png"]

  /** The body parser reads a body only for these exact content types. */
  predicate IsValidImageMimeType(contentType: Option<string>) {
    contentType.Some? && contentType.value in ValidMimeTypes
  }

  lemma MimeTypeAccepted(contentType: Option<string>)
    ensures IsValidImageMimeType(contentType) <==>
      contentType == Some("image/bmp") || contentType == Some("image/jpeg") || contentType == Some("image/png")
  {
  }

  /** The match is exact: no other image type, no other spelling, no
      parameters. */
  lemma MimeTypeExact()
    ensures !IsValidImageMimeType(Some("image/gif"))
    ensures !IsValidImageMimeType(Some("image/jpg"))
    ensures !IsValidImageMimeType(Some("IMAGE/PNG"))
    ensures !IsValidImageMimeType(Some("image/png; charset=binary"))
    ensures !IsValidImageMimeType(None)
  {
  }

  // ---------------------------------------------------------------------
  // Path templates

  /** One segment of a route path: fixed text, or a named parameter that
      matches any non-empty segment. */
  datatype Part = Literal(text: string) | Param

  type Template = seq<Part>

  function ParamCount(t: Template): nat {
    if t == [] then 0 else (if t[0].Param? then 1 else 0) + ParamCount(t[1..])
  }

  /** The parameters a path's segments bind, if the path matches. */
  function MatchTemplate(t: Template, segments: seq<string>): (r: Option<seq<string>>)
    ensures r.Some? ==> |segments| == |t| && |r.value| == ParamCount(t)
    ensures r.Some? ==> forall p :: p in r.value ==> p != ""
  {
    if t == [] then (if segments == [] then Some([]) else None)
    else if segments == [] then None
    else
      var rest := MatchTemplate(t[1..], segments[1..]);
      match t[0]
      case Literal(x) => if segments[0] == x then rest else None
      case Param => if segments[0] != "" && rest.Some? then Some([segments[0]] + rest.value) else None
  }

  /** The path a template yields for given parameter values. */
  function Fill(t: Template, params: seq<string>): (segments: seq<string>)
    requires |params| == ParamCount(t)
    ensures |segments| == |t|
  {
    if t == [] then []
    else match t[0]
      case Literal(x) => [x] + Fill(t[1..], params)
      case Param => [params[0]] + Fill(t[1..], params[1..])
  }

  /** Filling a template and matching it gives the parameters back. */
  lemma {:induction false} MatchFill(t: Template, params: seq<string>)
    requires |params| == ParamCount(t)
    requires forall p :: p in params ==> p != ""
    ensures MatchTemplate(t, Fill(t, params)) == Some(params)
  {
    if t != [] {
      var s := Fill(t, params);
      match t[0]
      case Literal(x) =>
        MatchFill(t[1..], params);
        assert s[1..] == Fill(t[1..], params);
      case Param =>
        assert params[0] in params;
        assert forall p :: p in params[1..] ==> p in params;
        MatchFill(t[1..], params[1..]);
        assert s[1..] == Fill(t[1..], params[1..]);
        assert [params[0]] + params[1..] == params;
    }
  }

  /** A path matches only if it is the template filled with what it binds. */
  lemma {:induction false} MatchSound(t: Template, segments: seq<string>)
    requires MatchTemplate(t, segments).Some?
    ensures Fill(t, MatchTemplate(t, segments).value) == segments
  {
    if t != [] {
      MatchSound(t[1..], segments[1..]);
      var r := MatchTemplate(t, segments).value;
      match t[0]
      case Literal(x) =>
        assert Fill(t, r) == [x] + Fill(t[1..], r);
      case Param =>
        assert r[1..] == MatchTemplate(t[1..], segments[1..]).value;
        assert Fill(t, r) == [r[0]] + Fill(t[1..], r[1..]);
    }
  }

  // ---------------------------------------------------------------------
  // Routes

  datatype HttpMethod = Get | Post | Delete | OtherMethod(name: string)

  datatype Handler = Welcome | AssertThenUpload | ListUrls | DeletePhotoHandler | GetUrl

  datatype Route = Route(verb: HttpMethod, template: Template, handler: Handler)

  /** The routes in the order they are registered. */
  const Routes: seq<Route> := [
    Route(Get, [], Welcome),
    Route(Post, [Literal("bucket"), Param, Literal("photos"), Param], AssertThenUpload),
    Route(Get, [Literal("bucket"), Param, Literal("photos")], ListUrls),
    Route(Delete, [Literal("bucket"), Param, Literal("photos"), Param], DeletePhotoHandler),
    Route(Get, [Literal("bucket"), Param, Literal("photos"), Param], GetUrl)
  ]

  predicate RouteMatches(route: Route, verb: HttpMethod, segments: seq<string>) {
    route.verb == verb && MatchTemplate(route.template, segments).Some?
  }

  /** The first route that matches the request, with the parameters it
      binds; `None` when no route does. */
  function Dispatch(routes: seq<Route>, verb: HttpMethod, segments: seq<string>): (r: Option<(nat, seq<string>)>)
    ensures r.Some? ==>
      && r.value.0 < |routes|
      && RouteMatches(routes[r.value.0], verb, segments)
      && MatchTemplate(routes[r.value.0].template, segments) == Some(r.value.1)
      && forall i :: 0 <= i < r.value.0 ==> !RouteMatches(routes[i], verb, segments)
    ensures r.None? <==> forall i :: 0 <= i < |routes| ==> !RouteMatches(routes[i], verb, segments)
  {
    if routes == [] then None
    else if RouteMatches(routes[0], verb, segments) then
      Some((0, MatchTemplate(routes[0].template, segments).value))
    else
      match Dispatch(routes[1..], verb, segments)
      case None => None
      case Some((i, ps)) => Some((i + 1, ps))
  }

  // ---------------------------------------------------------------------
  // The pipeline

  /** An incoming request, split into path segments (`/` is no segment).
      `body` is present when the request carries one; `parserError` is what
      the raw body parser raises reading it, such as a body over the size
      limit. */
  datatype Incoming = Incoming(
    verb: HttpMethod,
    segments: seq<string>,
    contentType: Option<string>,
    body: Option<Bytes>,
    parserError: Option<JsError>)

  /** The end of the pipeline: an answer together with the store it leaves,
      or a hand-off to the list or delete handler, which are not part of
      this model. */
  datatype Outcome =
    | Answered(store: Store, status: int, payload: Payload)
    | Delegated(handler: Handler, params: seq<string>)

  /** The error handler after the body parser: a body over the size limit
      becomes 413, any other error is dropped and the request goes on. */
  function ParserErrorReply(err: JsError): (r: Reply)
    ensures r.Send? <==> err.statusCode == Some(413)
    ensures r.Send? ==> r.status == 413 && r.payload == JsonBody(JObj([Member("code", Some("EntityTooLarge"))]))
  {
    if err.statusCode == Some(413) then Send(413, JsonBody(JObj([Member("code", Some("EntityTooLarge"))])))
    else Next
  }

  /** Whether the body parser runs at all: only for the three image types
      and only when there is a body. */
  predicate ParserRuns(req: Incoming) {
    IsValidImageMimeType(req.contentType) && req.body.Some?
  }

  /** `req.body` as the handlers see it. */
  function BodyOf(req: Incoming): (b: RequestBody)
    ensures b.RawBuffer? <==> ParserRuns(req) && req.parserError.None?
    ensures b.RawBuffer? ==> b.bytes == req.body.value
  {
    if ParserRuns(req) && req.parserError.None? then RawBuffer(req.body.value) else NotBuffer
  }

  const RouteNotFound: Payload := JsonBody(JObj([Member("code", Some("RouteNotFound"))]))

  const WelcomeText: string := "welcome to the photo-storage api"

  /** Run one handler chain. */
  function RunHandler(c: Client, store: Store, h: Handler, params: seq<string>, body: RequestBody): Outcome
    requires h == AssertThenUpload || h == GetUrl ==> |params| == 2
  {
    match h
    case Welcome => Answered(store, 200, TextBody(WelcomeText))
    case AssertThenUpload =>
      var (s1, a) := AssertBucketMw(c, store, params[0]);
      if a.Next? then
        var (s2, u) := UploadMw(c, s1, params[0], params[1], body);
        Answered(s2, u.status, u.payload)
      else Answered(s1, a.status, a.payload)
    case ListUrls => Delegated(ListUrls, params)
    case DeletePhotoHandler => Delegated(DeletePhotoHandler, params)
    case GetUrl =>
      var g := GetUrlMw(c, store, params[0], params[1]);
      Answered(store, g.status, g.payload)
  }

  /** One request through the whole pipeline. */
  function Serve(c: Client, store: Store, req: Incoming): Outcome {
    var early := if ParserRuns(req) && req.parserError.Some? then ParserErrorReply(req.parserError.value) else Next;
    if early.Send? then Answered(store, early.status, early.payload)
    else
      match Dispatch(Routes, req.verb, req.segments)
      case None => Answered(store, 404, RouteNotFound)
      case Some((i, params)) =>
        RunHandler(c, store, Routes[i].handler, params, BodyOf(req))
  }

  // ---------------------------------------------------------------------
  // What the pipeline guarantees

  /** No request matches two routes, so registration order decides nothing
      among them. */
  lemma RoutesDisjoint(verb: HttpMethod, segments: seq<string>, i: nat, j: nat)
    requires i < j < |Routes|
    ensures !(RouteMatches(Routes[i], verb, segments) && RouteMatches(Routes[j], verb, segments))
  {
  }

  const PhotoTemplate: Template := [Literal("bucket"), Param, Literal("photos"), Param]

  const PhotosTemplate: Template := [Literal("bucket"), Param, Literal("photos")]

  lemma PhotoTemplateMatch(b: string, p: string)
    requires b != "" && p != ""
    ensures MatchTemplate(PhotoTemplate, ["bucket", b, "photos", p]) == Some([b, p])
  {
    var t := PhotoTemplate;
    // Dafny unfolds `Fill` one part at a time, so the filled path is built
    // from its last part forwards before `MatchFill` applies.
    assert Fill(t[3..], [p]) == [p];
    assert Fill(t[2..], [p]) == ["photos", p];
    assert Fill(t[1..], [b, p]) == [b, "photos", p];
    MatchFill(t, [b, p]);
  }

  lemma PhotosTemplateMatch(b: string)
    requires b != ""
    ensures MatchTemplate(PhotosTemplate, ["bucket", b, "photos"]) == Some([b])
  {
    var t := PhotosTemplate;
    assert Fill(t[2..], []) == ["photos"];
    assert Fill(t[1..], [b]) == [b, "photos"];
    MatchFill(t, [b]);
  }


  /** Which route a well-formed photo path reaches. */
  lemma PhotoPathDispatch(verb: HttpMethod, b: string, p: string)
    requires b != "" && p != ""
    ensures verb == Post ==> Dispatch(Routes, verb, ["bucket", b, "photos", p]) == Some((1, [b, p]))
    ensures verb == Delete ==> Dispatch(Routes, verb, ["bucket", b, "photos", p]) == Some((3, [b, p]))
    ensures verb == Get ==> Dispatch(Routes, verb, ["bucket", b, "photos", p]) == Some((4, [b, p]))
    ensures verb.OtherMethod? ==> Dispatch(Routes, verb, ["bucket", b, "photos", p]).None?
  {
    PhotoTemplateMatch(b, p);
    assert Routes[1].template == PhotoTemplate && Routes[3].template == PhotoTemplate && Routes[4].template == PhotoTemplate;
  }

  /** A body over the size limit is answered 413 before any route runs,
      whatever the path, and the store is left alone. */
  lemma TooLargeBeforeRouting(c: Client, store: Store, req: Incoming)
    requires ParserRuns(req) && req.parserError.Some? && req.parserError.value.statusCode == Some(413)
    ensures Serve(c, store, req) == Answered(store, 413, JsonBody(JObj([Member("code", Some("EntityTooLarge"))])))
  {
  }

  /** A request no route matches is answered 404 `RouteNotFound`. */
  lemma UnmatchedIs404(c: Client, store: Store, req: Incoming)
    requires Dispatch(Routes, req.verb, req.segments).None?
    requires !(ParserRuns(req) && req.parserError.Some? && req.parserError.value.statusCode == Some(413))
    ensures Serve(c, store, req) == Answered(store, 404, RouteNotFound)
  {
  }

  /** A delete or an upload without a photo name matches no route. */
  lemma MissingPhotoName(b: string)
    ensures Dispatch(Routes, Delete, ["bucket", b, "photos"]).None?
    ensures Dispatch(Routes, Post, ["bucket", b, "photos"]).None?
  {
  }

  /** An empty bucket segment matches no route. */
  lemma EmptyBucketSegment(verb: HttpMethod, p: string)
    ensures Dispatch(Routes, verb, ["bucket", "", "photos", p]).None?
  {
    var t := PhotoTemplate;
    var s := ["bucket", "", "photos", p];
    assert t[1..][0] == Param && s[1..][0] == "";
    assert MatchTemplate(t, s).None?;
    assert MatchTemplate(PhotosTemplate, s).None?;
    assert Routes[1].template == PhotoTemplate && Routes[3].template == PhotoTemplate && Routes[4].template == PhotoTemplate;
  }

  /** The welcome text answers `GET /`. */
  lemma WelcomeRoute(c: Client, store: Store, req: Incoming)
    requires req.verb == Get && req.segments == []
    requires !(ParserRuns(req) && req.parserError.Some? && req.parserError.value.statusCode == Some(413))
    ensures Serve(c, store, req) == Answered(store, 200, TextBody(WelcomeText))
  {
  }

  /** Listing is handed to its own handler with the bucket parameter. */
  lemma ListDelegated(c: Client, store: Store, req: Incoming, b: string)
    requires b != "" && req.verb == Get && req.segments == ["bucket", b, "photos"]
    requires !(ParserRuns(req) && req.parserError.Some? && req.parserError.value.statusCode == Some(413))
    ensures Serve(c, store, req) == Delegated(ListUrls, [b])
  {
    PhotosTemplateMatch(b);
    assert Routes[2].template == PhotosTemplate;
  }

  /** Deleting is handed to its own handler with the bucket and photo
      parameters. */
  lemma DeleteDelegated(c: Client, store: Store, req: Incoming, b: string, p: string)
    requires b != "" && p != "" && req.verb == Delete && req.segments == ["bucket", b, "photos", p]
    requires !(ParserRuns(req) && req.parserError.Some? && req.parserError.value.statusCode == Some(413))
    ensures Serve(c, store, req) == Delegated(DeletePhotoHandler, [b, p])
  {
    PhotoPathDispatch(Delete, b, p);
  }

  /** Requests on the upload route, which runs assertBucket then upload. */
  predicate OnUploadRoute(req: Incoming, b: string, p: string) {
    && req.verb == Post && req.segments == ["bucket", b, "photos", p] && b != "" && p != ""
    && !(ParserRuns(req) && req.parserError.Some? && req.parserError.value.statusCode == Some(413))
  }

  /** When the bucket cannot be asserted, the upload never runs: the answer
      is assertBucket's error and the store is unchanged. */
  lemma NoBucketNoUpload(c: Client, store: Store, req: Incoming, b: string, p: string)
    requires OnUploadRoute(req, b, p)
    requires AssertBucket(c, store, b).1.Err?
    ensures var e := AssertBucketError(AssertBucket(c, store, b).1.error);
      Serve(c, store, req) == Answered(store, e.status, e.payload)
  {
    PhotoPathDispatch(Post, b, p);
  }

  /** A body the parser did not read (another content type, no body, or a
      parser error other than 413) is refused with 400 once the bucket has
      been asserted; the bucket remains created. */
  lemma UnreadBodyIs400(c: Client, store: Store, req: Incoming, b: string, p: string)
    requires OnUploadRoute(req, b, p)
    requires AssertBucket(c, store, b).1.Ok?
    requires !IsValidImageMimeType(req.contentType) || req.body.None? || req.parserError.Some?
    ensures var bad := BadRequest();
      Serve(c, store, req) == Answered(AssertBucket(c, store, b).0, bad.status, bad.payload)
  {
    PhotoPathDispatch(Post, b, p);
  }

  /** An image body reaching the upload route ends up in the physical
      bucket under the photo name, stored as `image`, and is answered 200. */
  lemma ImageUploadStored(c: Client, store: Store, req: Incoming, b: string, p: string)
    requires OnUploadRoute(req, b, p)
    requires IsValidImageMimeType(req.contentType) && req.body.Some? && req.parserError.None?
    requires c.svc.fault(CreateBucket(BucketName(c.stage, b))).None?
    requires c.svc.fault(Upload(UploadContentType, BucketName(c.stage, b), p, req.body.value)).None?
    ensures var r := Serve(c, store, req);
      && r.Answered? && r.status == 200
      && BucketName(c.stage, b) in r.store
      && p in r.store[BucketName(c.stage, b)]
      && r.store[BucketName(c.stage, b)][p] == StoredObject(req.body.value, UploadContentType)
  {
    PhotoPathDispatch(Post, b, p);
    var s1 := AssertBucket(c, store, b).0;
    UploadSucceeds(c, s1, b, p, req.body.value);
  }

  /** `GET /bucket/:bucket/photos/:photo` answers with getUrl's reply and
      leaves the store alone. */
  lemma GetUrlRoute(c: Client, store: Store, req: Incoming, b: string, p: string)
    requires req.verb == Get && req.segments == ["bucket", b, "photos", p] && b != "" && p != ""
    requires !(ParserRuns(req) && req.parserError.Some? && req.parserError.value.statusCode == Some(413))
    ensures var g := GetUrlMw(c, store, b, p);
      Serve(c, store, req) == Answered(store, g.status, g.payload)
  {
    PhotoPathDispatch(Get, b, p);
  }
}
