/** The photo-storage service's request handlers for asserting a bucket,
    uploading a photo and signing a photo URL (`middleware/assertBucket.js`,
    `middleware/upload.js`, `middleware/getUrl.js`): each calls the store
    adapter and maps a failure to a JSON error response. The three handlers
    use slightly different guards to decide whether a store error is shown
    to the client as it is. */
module StorageMiddleware {
  import opened Js
  import opened Json
  import opened ObjectStore
  import opened S3Store

  /** A response body: `res.json(..)` or `res.send(text)`. */
  datatype Payload = JsonBody(json: Json) | TextBody(text: string)

  /** What a handler does: pass on to the next handler, or answer. A reply
      without an explicit `res.status(..)` has status 200. */
  datatype Reply = Next | Send(status: int, payload: Payload)

  /** `req.body` as the upload handler finds it: a `Buffer` of raw bytes
      when the body parser read one, anything else otherwise. */
  datatype RequestBody = RawBuffer(bytes: Bytes) | NotBuffer

  const InternalServerError: string := "InternalServerError"

  /** A store error shown as it is: its status, code and message. */
  function Surfaced(e: JsError): Reply
    requires e.statusCode.Some?
  {
    Send(e.statusCode.value, JsonBody(JObj([Member("code", e.code), Member("message", e.message)])))
  }

  /** The bare 500 answer of assertBucket and getUrl. */
  function BareInternalError(): Reply {
    Send(500, JsonBody(JObj([Member("code", Some(InternalServerError))])))
  }

  // ---------------------------------------------------------------------
  // assertBucket

  /** An error is shown as it is only when status, code and message are all
      truthy; any other error becomes a bare 500. */
  function AssertBucketError(e: JsError): (r: Reply)
    ensures r.Send?
    ensures TruthyInt(e.statusCode) && Truthy(e.code) && Truthy(e.message) ==>
      r.status == e.statusCode.value && r.payload == JsonBody(JObj([Member("code", e.code), Member("message", e.message)]))
    ensures !(TruthyInt(e.statusCode) && Truthy(e.code) && Truthy(e.message)) ==> r == BareInternalError()
  {
    if TruthyInt(e.statusCode) && Truthy(e.code) && Truthy(e.message) then Surfaced(e)
    else BareInternalError()
  }

  /** Create the logical bucket from the route, then go on to the next
      handler; on failure answer with the mapped error. */
  function AssertBucketMw(c: Client, store: Store, bucket: string): (r: (Store, Reply))
    ensures var a := AssertBucket(c, store, bucket);
      && r.0 == a.0
      && (a.1.Ok? <==> r.1.Next?)
      && (a.1.Err? ==> r.1 == AssertBucketError(a.1.error))
  {
    var a := AssertBucket(c, store, bucket);
    match a.1
    case Ok(_) => (a.0, Next)
    case Err(e) => (a.0, AssertBucketError(e))
  }

  // ---------------------------------------------------------------------
  // upload

  const BadRequestMessage: string := "Unable to parse request. Verify your content-type to be of image/*"

  function BadRequest(): Reply {
    Send(400, JsonBody(JObj([Member("code", Some("BadRequest")), Member("message", Some(BadRequestMessage))])))
  }

  /** An error is shown as it is when status and code are truthy (the
      message may be missing); any other error becomes a 500 that carries
      the error's name and message. */
  function UploadError(e: JsError): (r: Reply)
    ensures r.Send?
    ensures TruthyInt(e.statusCode) && Truthy(e.code) ==>
      r.status == e.statusCode.value && r.payload == JsonBody(JObj([Member("code", e.code), Member("message", e.message)]))
    ensures !(TruthyInt(e.statusCode) && Truthy(e.code)) ==>
      r == Send(500, JsonBody(JObj([Member("code", Some(InternalServerError)), Member("name", e.name), Member("message", e.message)])))
  {
    if TruthyInt(e.statusCode) && Truthy(e.code) then Surfaced(e)
    else Send(500, JsonBody(JObj([Member("code", Some(InternalServerError)), Member("name", e.name), Member("message", e.message)])))
  }

  /** The upload result's `Bucket`, `key` and `Location` properties, which
      are `undefined` on any other kind of result. */
  function UploadDetails(resp: Response): (j: Json)
    ensures j.JObj? && |j.members| == 3
    ensures j.members[0].key == "bucket" && j.members[1].key == "key" && j.members[2].key == "location"
    ensures resp.Uploaded? ==> j.members[0].value == Some(resp.bucket) && j.members[1].value == Some(resp.key) && j.members[2].value == Some(resp.location)
    ensures !resp.Uploaded? ==> Present(j.members) == []
  {
    match resp
    case Uploaded(b, k, loc) => JObj([Member("bucket", Some(b)), Member("key", Some(k)), Member("location", Some(loc))])
    case _ => JObj([Member("bucket", None), Member("key", None), Member("location", None)])
  }

  /** Reject a body that is not a buffer; otherwise store it under the
      photo name and answer with where it went. */
  function UploadMw(c: Client, store: Store, bucket: string, photoName: string, body: RequestBody): (r: (Store, Reply))
    ensures r.1.Send?
    ensures body.NotBuffer? ==> r == (store, BadRequest())
    ensures body.RawBuffer? ==>
      var u := UploadPhoto(c, store, bucket, photoName, body.bytes);
      && r.0 == u.0
      && (u.1.Ok? ==> r.1 == Send(200, JsonBody(UploadDetails(u.1.value))))
      && (u.1.Err? ==> r.1 == UploadError(u.1.error))
  {
    match body
    case NotBuffer => (store, BadRequest())
    case RawBuffer(bytes) =>
      var u := UploadPhoto(c, store, bucket, photoName, bytes);
      match u.1
      case Ok(resp) => (u.0, Send(200, JsonBody(UploadDetails(resp))))
      case Err(e) => (u.0, UploadError(e))
  }

  /** A body that is not a buffer is refused before the store is consulted:
      the answer is the same whatever the store and its connection. */
  lemma BadBodyNeverReachesStore(c1: Client, c2: Client, store1: Store, store2: Store, bucket: string, photoName: string)
    ensures UploadMw(c1, store1, bucket, photoName, NotBuffer).1 == UploadMw(c2, store2, bucket, photoName, NotBuffer).1
    ensures UploadMw(c1, store1, bucket, photoName, NotBuffer).0 == store1
  {
  }

  /** A successful upload answers 200 with the physical bucket, the photo
      name as key, and the object's location; the store then holds the body
      under that key. */
  lemma UploadSucceeds(c: Client, store: Store, bucket: string, photoName: string, bytes: Bytes)
    requires BucketName(c.stage, bucket) in store
    requires c.svc.fault(Upload(UploadContentType, BucketName(c.stage, bucket), photoName, bytes)).None?
    ensures var phys := BucketName(c.stage, bucket);
      var r := UploadMw(c, store, bucket, photoName, RawBuffer(bytes));
      && r.1 == Send(200, JsonBody(JObj([
           Member("bucket", Some(phys)),
           Member("key", Some(photoName)),
           Member("location", Some("https://s3.amazonaws.com/" + phys + "/" + photoName))])))
      && phys in r.0 && photoName in r.0[phys]
      && r.0[phys][photoName] == StoredObject(bytes, UploadContentType)
  {
    var u := UploadPhoto(c, store, bucket, photoName, bytes);
    assert u.1.Ok? && u.1.value.Uploaded?;
  }

  // ---------------------------------------------------------------------
  // getUrl

  /** An error is shown as it is when status and code are truthy; any
      other error becomes a bare 500 with neither name nor message. */
  function GetUrlError(e: JsError): (r: Reply)
    ensures r.Send?
    ensures TruthyInt(e.statusCode) && Truthy(e.code) ==>
      r.status == e.statusCode.value && r.payload == JsonBody(JObj([Member("code", e.code), Member("message", e.message)]))
    ensures !(TruthyInt(e.statusCode) && Truthy(e.code)) ==> r == BareInternalError()
  {
    if TruthyInt(e.statusCode) && Truthy(e.code) then Surfaced(e)
    else BareInternalError()
  }

  /** Check that the photo exists, then answer with a signed URL for it. */
  function GetUrlMw(c: Client, store: Store, bucket: string, photo: string): (r: Reply)
    ensures r.Send?
    ensures var h := S3Store.HeadObject(c, store, bucket, photo);
      var s := GetPhotoUrl(c, bucket, photo);
      && (h.Err? ==> r == GetUrlError(h.error))
      && (h.Ok? && s.Err? ==> r == GetUrlError(s.error))
      && (h.Ok? && s.Ok? ==> r == Send(200, TextBody(s.value)))
  {
    match S3Store.HeadObject(c, store, bucket, photo)
    case Err(e) => GetUrlError(e)
    case Ok(_) =>
      match GetPhotoUrl(c, bucket, photo)
      case Err(e) => GetUrlError(e)
      case Ok(url) => Send(200, TextBody(url))
  }

  /** The signer is consulted only once the object is known to exist: when
      the metadata lookup fails, any other signer gives the same answer. */
  lemma SignerUnusedWhenHeadFails(c: Client, signer: SignRequest -> Result<string, JsError>, store: Store, bucket: string, photo: string)
    requires S3Store.HeadObject(c, store, bucket, photo).Err?
    ensures GetUrlMw(c, store, bucket, photo)
      == GetUrlMw(Client(Service(c.svc.fault, signer), c.stage), store, bucket, photo)
  {
    var c2 := Client(Service(c.svc.fault, signer), c.stage);
    assert S3Store.HeadObject(c2, store, bucket, photo) == S3Store.HeadObject(c, store, bucket, photo);
  }

  /** A missing photo answers 404 with code `NotFound` and no message.
      With the message undefined, its JSON text is that of
      `{code: "NotFound"}` and reads back as the code alone. */
  lemma MissingPhotoIs404(c: Client, store: Store, bucket: string, photo: string)
    requires c.svc.fault(ObjectStore.HeadObject(BucketName(c.stage, bucket), photo)).None?
    requires !(BucketName(c.stage, bucket) in store && photo in store[BucketName(c.stage, bucket)])
    ensures var r := GetUrlMw(c, store, bucket, photo);
      && r.Send? && r.status == 404 && r.payload.JsonBody?
      && Stringify(r.payload.json) == Stringify(JObj([Member("code", Some("NotFound"))]))
      && Parse(Stringify(r.payload.json)) == Some(JObj([Member("code", Some("NotFound"))]))
  {
    var r := GetUrlMw(c, store, bucket, photo);
    assert r == GetUrlError(NotFound());
    var ms := [Member("code", Some("NotFound")), Member("message", None)];
    assert r.payload.json == JObj(ms);
    assert Present(ms) == [ms[0]];
    ParseStringify(r.payload.json);
  }

  // ---------------------------------------------------------------------
  // How the three guards compare

  /** assertBucket's guard is the strictest: an error it shows as it is is
      shown the same way by upload and getUrl. */
  lemma AssertGuardStrictest(e: JsError)
    requires AssertBucketError(e) != BareInternalError()
    ensures UploadError(e) == AssertBucketError(e)
    ensures GetUrlError(e) == AssertBucketError(e)
  {
  }

  /** Upload and getUrl agree on which errors they show; they differ only in
      whether their 500 carries the error's name and message. */
  lemma UploadAndGetUrlAgree(e: JsError)
    ensures UploadError(e).status == GetUrlError(e).status
    ensures TruthyInt(e.statusCode) && Truthy(e.code) ==> UploadError(e) == GetUrlError(e)
  {
  }

  /** A store error without a message: upload and getUrl show it with its
      own status, assertBucket turns it into a 500. */
  lemma MessageGuardDiffers()
    ensures var e := JsError(Some(403), Some("AccessDenied"), None, None, None, None);
      && AssertBucketError(e).status == 500
      && UploadError(e).status == 403
      && GetUrlError(e).status == 403
  {
  }
}
