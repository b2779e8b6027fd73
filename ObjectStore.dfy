/** The object store the photo-storage service talks to, reduced to what the
    adapter relies on: buckets are maps from key to stored object, each SDK
    call is a request record, and the service answers it from the map unless
    an injected fault (`Service.fault`) makes that call fail instead, as
    throttling, missing credentials or a network error would. URL signing is
    an oracle (`Service.signer`). */
module ObjectStore {
  import opened Js

  datatype StoredObject = StoredObject(body: Bytes, contentType: string)

  type Bucket = map<string, StoredObject>

  /** Physical bucket name to bucket. */
  type Store = map<string, Bucket>

  /** The parameter records the adapter hands to the SDK, one per S3 call. */
  datatype Request =
    | CreateBucket(bucket: string)
    | DeleteObject(bucket: string, key: string)
    | HeadObject(bucket: string, key: string)
    | ListObjectsV2(bucket: string, maxKeys: int, startAfter: Option<string>)
    | Upload(contentType: string, bucket: string, key: string, body: Bytes)

  /** One page of a listing: keys in ascending order. */
  datatype Page = Page(name: string, keys: seq<string>, isTruncated: bool, maxKeys: int, startAfter: Option<string>)

  datatype Response =
    | BucketCreated(location: string)
    | Deleted
    | Metadata(contentType: string, contentLength: nat)
    | Listing(page: Page)
    | Uploaded(bucket: string, key: string, location: string)

  /** The parameters of `getSignedUrl(operation, {Bucket, Key})`. */
  datatype SignRequest = SignRequest(operation: string, bucket: string, key: string)

  datatype Service = Service(fault: Request -> Option<JsError>, signer: SignRequest -> Result<string, JsError>)

  function NoSuchBucket(): JsError {
    ServiceError(404, "NoSuchBucket", "The specified bucket does not exist")
  }

  /** A HEAD response has no body, so its error carries no message text;
      `None` here stands for the SDK's missing message whether it is
      undefined or null. */
  function NotFound(): JsError {
    JsError(Some(404), Some("NotFound"), None, Some("NotFound"), None, None)
  }

  // ---------------------------------------------------------------------
  // Key order: the store lists keys in ascending code-point order.

  predicate Below(a: string, b: string) {
    if b == [] then false
    else if a == [] then true
    else if a[0] != b[0] then a[0] < b[0]
    else Below(a[1..], b[1..])
  }

  lemma {:induction false} BelowIrreflexive(a: string)
    ensures !Below(a, a)
  {
    if a != [] {
      BelowIrreflexive(a[1..]);
    }
  }

  lemma {:induction false} BelowAsymmetric(a: string, b: string)
    ensures Below(a, b) ==> !Below(b, a)
  {
    if a != [] && b != [] && a[0] == b[0] {
      BelowAsymmetric(a[1..], b[1..]);
    }
  }

  lemma {:induction false} BelowTransitive(a: string, b: string, c: string)
    requires Below(a, b) && Below(b, c)
    ensures Below(a, c)
  {
    if a != [] && a[0] == b[0] && b[0] == c[0] {
      BelowTransitive(a[1..], b[1..], c[1..]);
    }
  }

  lemma {:induction false} BelowTotal(a: string, b: string)
    requires a != b
    ensures Below(a, b) || Below(b, a)
  {
    if a != [] && b != [] && a[0] == b[0] {
      assert a == [a[0]] + a[1..] && b == [b[0]] + b[1..];
      BelowTotal(a[1..], b[1..]);
    }
  }

  lemma BelowAsymmetricAll()
    ensures forall a, b :: Below(a, b) ==> !Below(b, a)
  {
    forall a, b | Below(a, b) ensures !Below(b, a) {
      BelowAsymmetric(a, b);
    }
  }

  predicate Ascending(s: seq<string>) {
    forall i, j :: 0 <= i < j < |s| ==> Below(s[i], s[j])
  }

  predicate IsLeast(m: string, s: set<string>) {
    m in s && forall x :: x in s ==> x == m || Below(m, x)
  }

  lemma {:induction false} LeastExists(s: set<string>)
    requires s != {}
    ensures exists m :: IsLeast(m, s)
    decreases |s|
  {
    var y :| y in s;
    if s != {y} {
      var t := s - {y};
      LeastExists(t);
      var m :| IsLeast(m, t);
      if Below(m, y) {
        assert IsLeast(m, s);
      } else {
        BelowTotal(m, y);
        forall x | x in s ensures x == y || Below(y, x) {
          if x != y {
            assert x == m || Below(m, x);
            if x != m {
              BelowTransitive(y, m, x);
            }
          }
        }
        assert IsLeast(y, s);
      }
    } else {
      assert IsLeast(y, s);
    }
  }

  /** The keys of a bucket in listing order. */
  function SortedKeys(s: set<string>): (r: seq<string>)
    ensures Ascending(r)
    ensures forall k :: k in r <==> k in s
    ensures |r| == |s|
    decreases |s|
  {
    if s == {} then []
    else
      LeastExists(s);
      BelowAsymmetricAll();
      var m :| IsLeast(m, s);
      var t := SortedKeys(s - {m});
      assert forall j :: 0 <= j < |t| ==> Below(m, t[j]) by {
        forall j | 0 <= j < |t| ensures Below(m, t[j]) {
          assert t[j] in s - {m};
        }
      }
      [m] + t
  }

  /** Index of the first key strictly after the marker. */
  function FirstAfter(keys: seq<string>, marker: string): (i: nat)
    ensures i <= |keys|
    ensures forall j :: 0 <= j < i ==> !Below(marker, keys[j])
    ensures i < |keys| ==> Below(marker, keys[i])
  {
    if keys == [] then 0
    else if Below(marker, keys[0]) then 0
    else 1 + FirstAfter(keys[1..], marker)
  }

  /** The keys a listing may return: those of the bucket strictly after the
      StartAfter marker, in ascending order. */
  function Remaining(bucket: Bucket, startAfter: Option<string>): seq<string> {
    var all := SortedKeys(bucket.Keys);
    match startAfter
    case None => all
    case Some(c) => all[FirstAfter(all, c)..]
  }

  function ListPage(name: string, bucket: Bucket, maxKeys: int, startAfter: Option<string>): Page {
    var rest := Remaining(bucket, startAfter);
    var n := if maxKeys <= 0 then 0 else if maxKeys < |rest| then maxKeys else |rest|;
    Page(name, rest[..n], n < |rest|, maxKeys, startAfter)
  }

  /** The store's answer to one request, with its new contents. */
  function Execute(svc: Service, store: Store, req: Request): (r: (Store, Result<Response, JsError>))
    ensures svc.fault(req).Some? ==> r == (store, Err(svc.fault(req).value))
    ensures req.HeadObject? || req.ListObjectsV2? ==> r.0 == store
    ensures r.1.Err? ==> r.0 == store
  {
    match svc.fault(req)
    case Some(e) => (store, Err(e))
    case None =>
      match req
      case CreateBucket(b) =>
        (store[b := if b in store then store[b] else map[]], Ok(BucketCreated("/" + b)))
      case DeleteObject(b, k) =>
        if b in store then (store[b := store[b] - {k}], Ok(Deleted)) else (store, Err(NoSuchBucket()))
      case HeadObject(b, k) =>
        if b in store && k in store[b]
        then (store, Ok(Metadata(store[b][k].contentType, |store[b][k].body|)))
        else (store, Err(NotFound()))
      case ListObjectsV2(b, maxKeys, startAfter) =>
        if b in store then (store, Ok(Listing(ListPage(b, store[b], maxKeys, startAfter))))
        else (store, Err(NoSuchBucket()))
      case Upload(ct, b, k, body) =>
        if b in store
        then (store[b := store[b][k := StoredObject(body, ct)]], Ok(Uploaded(b, k, "https://s3.amazonaws.com/" + b + "/" + k)))
        else (store, Err(NoSuchBucket()))
  }

  // ---------------------------------------------------------------------
  // Listing pages

  lemma {:induction false} AscendingFirstAfterLast(keys: seq<string>, p: nat)
    requires Ascending(keys) && p < |keys|
    ensures FirstAfter(keys, keys[p]) == p + 1
  {
    if p == 0 {
      BelowIrreflexive(keys[0]);
      if |keys| > 1 {
        assert FirstAfter(keys[1..], keys[0]) == 0 by {
          assert Below(keys[0], keys[1..][0]);
        }
      }
    } else {
      assert Ascending(keys[1..]);
      AscendingFirstAfterLast(keys[1..], p - 1);
      assert keys[1..][p - 1] == keys[p];
      assert Below(keys[0], keys[p]);
      BelowAsymmetric(keys[0], keys[p]);
    }
  }

  /** In an ascending list, the keys from the first one past the marker on
      are exactly the listed keys above the marker. */
  lemma SuffixAfterMarker(all: seq<string>, c: string, k: string)
    requires Ascending(all)
    ensures k in all[FirstAfter(all, c)..] <==> k in all && Below(c, k)
  {
    var i := FirstAfter(all, c);
    var rest := all[i..];
    if k in rest {
      var j :| i <= j < |all| && all[j] == k;
      if j > i {
        BelowTransitive(c, all[i], all[j]);
      }
    }
    if k in all && Below(c, k) {
      var j :| 0 <= j < |all| && all[j] == k;
      assert j >= i;
      assert rest[j - i] == k;
    }
  }

  /** Which keys can follow the marker: exactly those of the bucket above it. */
  lemma RemainingSpec(bucket: Bucket, startAfter: Option<string>)
    ensures Ascending(Remaining(bucket, startAfter))
    ensures forall k :: k in Remaining(bucket, startAfter) <==>
      k in bucket && (startAfter.None? || Below(startAfter.value, k))
  {
    var all := SortedKeys(bucket.Keys);
    if startAfter.Some? {
      var c := startAfter.value;
      forall k ensures k in all[FirstAfter(all, c)..] <==> k in all && Below(c, k) {
        SuffixAfterMarker(all, c, k);
      }
    }
  }

  /** The keys of a listing page are the first `n` keys above the marker,
      where `n` is `maxKeys` capped at what is left and at zero. */
  lemma ListPageKeys(name: string, bucket: Bucket, maxKeys: int, startAfter: Option<string>)
    ensures var p := ListPage(name, bucket, maxKeys, startAfter);
      var rest := Remaining(bucket, startAfter);
      && |p.keys| == (if maxKeys <= 0 then 0 else if maxKeys < |rest| then maxKeys else |rest|)
      && p.keys == rest[..|p.keys|]
      && (p.isTruncated <==> |p.keys| < |rest|)
      && p.name == name && p.maxKeys == maxKeys && p.startAfter == startAfter
  {
  }

  /** A prefix of an ascending sequence is ascending, and it leaves out some
      element exactly when it is a proper prefix. */
  lemma {:induction false} AscendingPrefix(rest: seq<string>, n: nat)
    requires Ascending(rest) && n <= |rest|
    ensures Ascending(rest[..n])
    ensures n < |rest| <==> exists k :: k in rest && k !in rest[..n]
  {
    if n < |rest| {
      var k := rest[n];
      if k in rest[..n] {
        var j :| 0 <= j < n && rest[..n][j] == k;
        assert Below(rest[j], rest[n]);
        BelowIrreflexive(k);
      }
      assert k in rest && k !in rest[..n];
    } else {
      assert rest[..n] == rest;
    }
  }

  /** A listing page holds keys of the bucket above the marker, in ascending
      order, and is truncated exactly when some such key is left out. */
  lemma ListPageSpec(name: string, bucket: Bucket, maxKeys: int, startAfter: Option<string>)
    ensures var p := ListPage(name, bucket, maxKeys, startAfter);
      && Ascending(p.keys)
      && (forall k :: k in p.keys ==> k in bucket && (startAfter.None? || Below(startAfter.value, k)))
      && (p.isTruncated <==> exists k :: k in bucket && (startAfter.None? || Below(startAfter.value, k)) && k !in p.keys)
  {
    var p := ListPage(name, bucket, maxKeys, startAfter);
    var rest := Remaining(bucket, startAfter);
    RemainingSpec(bucket, startAfter);
    ListPageKeys(name, bucket, maxKeys, startAfter);
    AscendingPrefix(rest, |p.keys|);
  }

  /** In an ascending sequence, the elements after position `p` are exactly
      those above the element at `p`. */
  lemma ResumeSuffix(all: seq<string>, off: nat, n: nat)
    requires Ascending(all) && 0 < n && off + n <= |all|
    ensures all[FirstAfter(all, all[off..][n - 1])..] == all[off..][n..]
  {
    assert all[off..][n - 1] == all[off + n - 1];
    AscendingFirstAfterLast(all, off + n - 1);
  }

  /** Listing again with the last key of a page as the marker resumes exactly
      where the page stopped. */
  lemma ListResumes(bucket: Bucket, startAfter: Option<string>, n: nat)
    requires 0 < n <= |Remaining(bucket, startAfter)|
    ensures var rest := Remaining(bucket, startAfter);
      Remaining(bucket, Some(rest[n - 1])) == rest[n..]
  {
    var all := SortedKeys(bucket.Keys);
    var off := if startAfter.Some? then FirstAfter(all, startAfter.value) else 0;
    assert Remaining(bucket, startAfter) == all[off..];
    ResumeSuffix(all, off, n);
  }
}
