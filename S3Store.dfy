/** The photo-storage service's adapter over the object store
    (`stores/s3.js`): every operation derives the physical bucket name from
    the deployment stage and the caller's logical bucket, builds the SDK's
    parameter record, and hands back whatever the store answers. */
module S3Store {
  import opened Js
  import opened ObjectStore

  /** `s3Store(s3Conn)`: the SDK connection together with the `STAGE`
      environment variable the bucket names are derived from. */
  datatype Client = Client(svc: Service, stage: Option<string>)

  /** Keys per listing page when the caller gives no limit. */
  const DefaultPageSize: int := 12

  /** The content type every upload is stored under. */
  const UploadContentType: string := "image"

  // ---------------------------------------------------------------------
  // Bucket names

  function StagePrefix(stage: Option<string>): string {
    "s3-photos-" + Interpolate(stage) + "-"
  }

  /** The physical bucket behind a logical one; an unset stage reads as
      `undefined`, as a template literal would render it. */
  function BucketName(stage: Option<string>, name: string): string {
    StagePrefix(stage) + name
  }

  /** The logical bucket a physical name belongs to, if it belongs to this
      stage at all. */
  function LogicalName(stage: Option<string>, phys: string): (r: Option<string>)
    ensures r.Some? ==> BucketName(stage, r.value) == phys
  {
    var p := StagePrefix(stage);
    if |p| <= |phys| && phys[..|p|] == p then Some(phys[|p|..]) else None
  }

  lemma LogicalNameOfBucketName(stage: Option<string>, name: string)
    ensures LogicalName(stage, BucketName(stage, name)) == Some(name)
  {
    var p := StagePrefix(stage);
    assert BucketName(stage, name)[..|p|] == p;
    assert BucketName(stage, name)[|p|..] == name;
  }

  /** Within one stage, distinct logical buckets never share a physical one. */
  lemma BucketNameInjective(stage: Option<string>, a: string, b: string)
    requires BucketName(stage, a) == BucketName(stage, b)
    ensures a == b
  {
    LogicalNameOfBucketName(stage, a);
    LogicalNameOfBucketName(stage, b);
  }

  /** Every physical bucket lies in the `s3-photos-` namespace. */
  lemma BucketNameNamespace(stage: Option<string>, name: string)
    ensures |BucketName(stage, name)| >= 11
    ensures BucketName(stage, name)[..10] == "s3-photos-"
  {
    assert BucketName(stage, name) == "s3-photos-" + (Interpolate(stage) + "-" + name);
  }

  /** The name alone does not tell the stage: stage `a` with bucket `b-c`
      and stage `a-b` with bucket `c` address the same physical bucket. */
  lemma StagesMayCollide()
    ensures BucketName(Some("a"), "b-c") == BucketName(Some("a-b"), "c")
    ensures BucketName(None, "x") == "s3-photos-undefined-x"
  {
  }

  // ---------------------------------------------------------------------
  // Operations

  /** assertBucket: create the physical bucket, or keep it as it is. */
  function AssertBucket(c: Client, store: Store, name: string): (r: (Store, Result<Response, JsError>))
    ensures var phys := BucketName(c.stage, name);
      var fault := c.svc.fault(CreateBucket(phys));
      && (fault.Some? ==> r == (store, Err(fault.value)))
      && (fault.None? ==>
            && r.1 == Ok(BucketCreated("/" + phys))
            && phys in r.0
            && (phys in store ==> r.0 == store)
            && (phys !in store ==> r.0[phys] == map[])
            && r.0 - {phys} == store - {phys})
  {
    Execute(c.svc, store, CreateBucket(BucketName(c.stage, name)))
  }

  /** deletePhoto: remove one key of the physical bucket. */
  function DeletePhoto(c: Client, store: Store, name: string, key: string): (r: (Store, Result<Response, JsError>))
    ensures var phys := BucketName(c.stage, name);
      var fault := c.svc.fault(DeleteObject(phys, key));
      && (fault.Some? ==> r == (store, Err(fault.value)))
      && (fault.None? && phys !in store ==> r == (store, Err(NoSuchBucket())))
      && (fault.None? && phys in store ==>
            && r.1 == Ok(Deleted)
            && phys in r.0
            && key !in r.0[phys]
            && r.0[phys] - {key} == store[phys] - {key}
            && r.0 - {phys} == store - {phys})
  {
    Execute(c.svc, store, DeleteObject(BucketName(c.stage, name), key))
  }

  /** headObject: the metadata of one key of the physical bucket. */
  function HeadObject(c: Client, store: Store, name: string, key: string): (r: Result<Response, JsError>)
    ensures var phys := BucketName(c.stage, name);
      var fault := c.svc.fault(ObjectStore.HeadObject(phys, key));
      && (fault.Some? ==> r == Err(fault.value))
      && (fault.None? && phys in store && key in store[phys] ==>
            r == Ok(Metadata(store[phys][key].contentType, |store[phys][key].body|)))
      && (fault.None? && !(phys in store && key in store[phys]) ==> r == Err(NotFound()))
  {
    Execute(c.svc, store, ObjectStore.HeadObject(BucketName(c.stage, name), key)).1
  }

  /** The listing parameters: `MaxKeys` is the limit when it is truthy and
      the default page size otherwise; `StartAfter` is present exactly when
      the cursor is a non-empty string, and is then the cursor itself. */
  function ListParams(stage: Option<string>, name: string, limit: Option<int>, cursor: Option<string>): (q: Request)
    ensures q.ListObjectsV2? && q.bucket == BucketName(stage, name)
    ensures TruthyInt(limit) ==> q.maxKeys == limit.value
    ensures !TruthyInt(limit) ==> q.maxKeys == DefaultPageSize
    ensures q.startAfter.Some? <==> Truthy(cursor)
    ensures q.startAfter.Some? ==> q.startAfter == cursor
  {
    ListObjectsV2(
      BucketName(stage, name),
      if TruthyInt(limit) then limit.value else DefaultPageSize,
      if Truthy(cursor) then cursor else None)
  }

  /** listPhotos: one page of the physical bucket's keys. */
  function ListPhotos(c: Client, store: Store, name: string, limit: Option<int>, cursor: Option<string>): (r: Result<Response, JsError>)
    ensures var q := ListParams(c.stage, name, limit, cursor);
      var fault := c.svc.fault(q);
      && (fault.Some? ==> r == Err(fault.value))
      && (fault.None? && q.bucket !in store ==> r == Err(NoSuchBucket()))
      && (fault.None? && q.bucket in store ==>
            r == Ok(Listing(ListPage(q.bucket, store[q.bucket], q.maxKeys, q.startAfter))))
  {
    Execute(c.svc, store, ListParams(c.stage, name, limit, cursor)).1
  }

  /** uploadPhoto: store the caller's body under the caller's key, as an
      `image`. */
  function UploadPhoto(c: Client, store: Store, name: string, key: string, body: Bytes): (r: (Store, Result<Response, JsError>))
    ensures var phys := BucketName(c.stage, name);
      var fault := c.svc.fault(Upload(UploadContentType, phys, key, body));
      && (fault.Some? ==> r == (store, Err(fault.value)))
      && (fault.None? && phys !in store ==> r == (store, Err(NoSuchBucket())))
      && (fault.None? && phys in store ==>
            && r.1 == Ok(Uploaded(phys, key, "https://s3.amazonaws.com/" + phys + "/" + key))
            && phys in r.0
            && key in r.0[phys]
            && r.0[phys][key] == StoredObject(body, UploadContentType)
            && r.0[phys] - {key} == store[phys] - {key}
            && r.0 - {phys} == store - {phys})
  {
    Execute(c.svc, store, Upload(UploadContentType, BucketName(c.stage, name), key, body))
  }

  /** getPhotoUrl: a signed `getObject` URL for one key of the physical
      bucket; it fails exactly when the signer does. */
  function GetPhotoUrl(c: Client, name: string, key: string): (r: Result<string, JsError>)
    ensures var signed := c.svc.signer(SignRequest("getObject", BucketName(c.stage, name), key));
      && (r.Err? <==> signed.Err?)
      && (r.Ok? ==> r.value == signed.value)
      && (r.Err? ==> r.error == signed.error)
  {
    c.svc.signer(SignRequest("getObject", BucketName(c.stage, name), key))
  }

  // ---------------------------------------------------------------------
  // How the operations combine

  /** Asserting a bucket twice is the same as asserting it once. */
  lemma AssertBucketIdempotent(c: Client, store: Store, name: string)
    requires c.svc.fault(CreateBucket(BucketName(c.stage, name))).None?
    ensures var once := AssertBucket(c, store, name);
      AssertBucket(c, once.0, name) == once
  {
  }

  /** After an upload, the object's metadata reports the `image` type and
      the body's length. */
  lemma UploadThenHead(c: Client, store: Store, name: string, key: string, body: Bytes)
    requires BucketName(c.stage, name) in store
    requires c.svc.fault(Upload(UploadContentType, BucketName(c.stage, name), key, body)).None?
    requires c.svc.fault(ObjectStore.HeadObject(BucketName(c.stage, name), key)).None?
    ensures HeadObject(c, UploadPhoto(c, store, name, key, body).0, name, key)
      == Ok(Metadata(UploadContentType, |body|))
  {
    var after := UploadPhoto(c, store, name, key, body).0;
    var phys := BucketName(c.stage, name);
    assert phys in after && key in after[phys];
    assert after[phys][key] == StoredObject(body, UploadContentType);
  }

  /** After a delete, the object is gone. */
  lemma DeleteThenHead(c: Client, store: Store, name: string, key: string)
    requires BucketName(c.stage, name) in store
    requires c.svc.fault(DeleteObject(BucketName(c.stage, name), key)).None?
    requires c.svc.fault(ObjectStore.HeadObject(BucketName(c.stage, name), key)).None?
    ensures HeadObject(c, DeletePhoto(c, store, name, key).0, name, key) == Err(NotFound())
  {
    var after := DeletePhoto(c, store, name, key).0;
    assert key !in after[BucketName(c.stage, name)];
  }

  /** Without a limit or cursor, a listing is the bucket's first twelve keys
      in order, or all of them when there are fewer. */
  lemma DefaultListing(c: Client, store: Store, name: string)
    requires BucketName(c.stage, name) in store
    requires c.svc.fault(ListParams(c.stage, name, None, None)).None?
    ensures var r := ListPhotos(c, store, name, None, None);
      var all := SortedKeys(store[BucketName(c.stage, name)].Keys);
      && r.Ok? && r.value.Listing?
      && r.value.page.keys == all[..if |all| < DefaultPageSize then |all| else DefaultPageSize]
      && (r.value.page.isTruncated <==> |all| > DefaultPageSize)
  {
    var phys := BucketName(c.stage, name);
    ListPageKeys(phys, store[phys], DefaultPageSize, None);
  }

  /** Passing the last key of a page as the next cursor (with the same limit)
      lists exactly the keys that page stopped before. */
  lemma CursorResumes(c: Client, store: Store, name: string, limit: Option<int>, cursor: Option<string>)
    requires var q := ListParams(c.stage, name, limit, cursor);
      && q.bucket in store
      && c.svc.fault(q).None?
      && q.maxKeys > 0
    requires var r := ListPhotos(c, store, name, limit, cursor);
      r.Ok? && r.value.Listing? && r.value.page.keys != [] && r.value.page.keys[|r.value.page.keys| - 1] != ""
    ensures var q := ListParams(c.stage, name, limit, cursor);
      var page := ListPhotos(c, store, name, limit, cursor).value.page;
      var next := ListParams(c.stage, name, limit, Some(page.keys[|page.keys| - 1]));
      Remaining(store[q.bucket], next.startAfter)
        == Remaining(store[q.bucket], q.startAfter)[|page.keys|..]
  {
    var q := ListParams(c.stage, name, limit, cursor);
    var page := ListPhotos(c, store, name, limit, cursor).value.page;
    ListPageKeys(q.bucket, store[q.bucket], q.maxKeys, q.startAfter);
    var rest := Remaining(store[q.bucket], q.startAfter);
    var n := |page.keys|;
    assert page.keys[n - 1] == rest[n - 1];
    ListResumes(store[q.bucket], q.startAfter, n);
  }
}
