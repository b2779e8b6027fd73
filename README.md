# Picture upload: the decision logic of the photo services

This project models the core of the picture-upload application in Dafny and
proves properties of that model. The application is made of two Node
services. The photo-storage API keeps photos in S3 buckets. The web client
sends each uploaded picture through a greyscale filter service and on to
the storage API. The model covers the small decision procedures these
services are made of:

- the store adapter, which derives the physical bucket
  `s3-photos-<stage>-<bucket>` and builds the request for every store
  operation (`Js`, `ObjectStore`, `S3Store`);
- the storage API's handlers and their error normalisation, and the request
  pipeline of its server: the MIME-type filter, the 413 mapping, the routes
  in registration order and the catch-all 404 (`StorageMiddleware`,
  `StorageServer`);
- the web client's bucket-id registry, a class holding the DynamoDB table
  and the application-wide `s3Bucket`, with the conditional put as one
  atomic step (`BucketRegistry`);
- the web client's three classifiers for what the HTTP client reports: the
  greyscale step, the upload step and the home page (`HttpClient`,
  `FilterGreyscale`, `WebUpload`, `Homepage`).

JavaScript semantics the decisions depend on are written out:

- Truthiness. A string is truthy when it is defined and non-empty; a number
  when it is defined and not 0. See `Js.Truthy` and `Js.TruthyInt`.
- Template interpolation, which turns `undefined` into the text
  `undefined`. See `Js.Interpolate`.
- `JSON.stringify` on the flat records the handlers build. It drops
  undefined members and escapes strings as JSON requires. See
  `Json.Stringify`.

A decoder for that output, `Json.Parse`, stands for whoever reads an `err`
redirect back. It is proved to invert the serialiser (`Json.ParseStringify`).

The backing store is a map from physical bucket name to a map from key to
object. Every call may instead fail with an injected error: the function
`Service.fault` stands for throttling, missing credentials or a network
failure. URL signing is an oracle. The HTTP client, the uuid generator,
`buffer.toString()` and `JSON.parse` in the home page are function
parameters. In the registry, each DynamoDB read is current, stale (it
misses a record another request has just put) or faulty, as an oracle
chooses (`BucketRegistry.ReadView`).

## Model

| member | source | states |
|---|---|---|
| S3Store.BucketName | picture-upload/apps/photo-storage/stores/s3.js:16 | the physical bucket `s3-photos-<stage>-<name>`, an unset stage read as `undefined`; its contract is carried by LogicalNameOfBucketName (the inverse gives the name back), BucketNameInjective and BucketNameNamespace |
| S3Store.LogicalName | picture-upload/apps/photo-storage/stores/s3.js:16 | a physical name is mapped back to a logical bucket only when it is that bucket's derived name |
| S3Store.LogicalNameOfBucketName | picture-upload/apps/photo-storage/stores/s3.js:16 | the derived name `s3-photos-<stage>-<name>` gives the logical name back |
| S3Store.BucketNameInjective | picture-upload/apps/photo-storage/stores/s3.js:16 | within a stage, distinct logical buckets have distinct physical buckets |
| S3Store.BucketNameNamespace | picture-upload/apps/photo-storage/stores/s3.js:16 | every physical bucket name starts with `s3-photos-` |
| S3Store.StagesMayCollide | picture-upload/apps/photo-storage/stores/s3.js:16 | the name does not determine the stage (`a`/`b-c` and `a-b`/`c` collide); an unset stage reads `undefined` |
| S3Store.AssertBucket | picture-upload/apps/photo-storage/stores/s3.js:18-21 | create-bucket on the physical bucket: a store error is returned unchanged; otherwise the bucket exists afterwards, an existing one is untouched and no other bucket changes |
| S3Store.DeletePhoto | picture-upload/apps/photo-storage/stores/s3.js:23-26 | delete on (physical bucket, key): on success only that key of that bucket is removed; store errors and a missing bucket are passed through |
| S3Store.GetPhotoUrl | picture-upload/apps/photo-storage/stores/s3.js:28-36 | signs `getObject` on (physical bucket, key); fails iff the signer fails, with the signer's error, and otherwise returns the signer's URL |
| S3Store.HeadObject | picture-upload/apps/photo-storage/stores/s3.js:38-41 | head on (physical bucket, key): the object's type and length, `NotFound` when absent, a store error unchanged |
| S3Store.ListParams | picture-upload/apps/photo-storage/stores/s3.js:43-48 | MaxKeys is the limit when it is truthy and 12 otherwise; StartAfter is present iff the cursor is a non-empty string, and is then the cursor verbatim |
| S3Store.ListPhotos | picture-upload/apps/photo-storage/stores/s3.js:43-51 | the store's listing of the physical bucket for those parameters, returned unchanged, errors included |
| S3Store.UploadPhoto | picture-upload/apps/photo-storage/stores/s3.js:53-62 | stores exactly the caller's key and body with content type `image` in the physical bucket, changes nothing else, and returns the store's result |
| S3Store.AssertBucketIdempotent | picture-upload/apps/photo-storage/stores/s3.js:18-21 | asserting a bucket twice has the same effect and answer as asserting it once |
| S3Store.UploadThenHead | picture-upload/apps/photo-storage/stores/s3.js:53-62 | after an upload, head reports type `image` and the body's length |
| S3Store.DeleteThenHead | picture-upload/apps/photo-storage/stores/s3.js:23-26 | after a delete, head reports `NotFound` |
| S3Store.DefaultListing | picture-upload/apps/photo-storage/stores/s3.js:43-51 | without limit or cursor, a page holds the first 12 keys in order, and is truncated iff the bucket has more |
| S3Store.CursorResumes | picture-upload/apps/photo-storage/stores/s3.js:43-51 | passing a page's last key as the next cursor lists exactly the keys after that page |
| ObjectStore.ListPageSpec | picture-upload/apps/photo-storage/stores/s3.js:50 | a listing page is ascending, holds only keys of the bucket after the marker, and is truncated iff a qualifying key was left out |
| ObjectStore.ListResumes | picture-upload/apps/photo-storage/stores/s3.js:50 | the keys after the n-th listed key are the listing with its first n keys dropped |
| StorageMiddleware.AssertBucketError | picture-upload/apps/photo-storage/middleware/assertBucket.js:17-26 | an error is shown as `{code, message}` with its own status iff status, code and message are all truthy; otherwise 500 with exactly `{code:"InternalServerError"}` |
| StorageMiddleware.AssertBucketMw | picture-upload/apps/photo-storage/middleware/assertBucket.js:14-27 | asserts the route's logical bucket; goes on to the next handler iff that succeeded, and otherwise answers with the mapped error |
| StorageMiddleware.UploadDetails | picture-upload/apps/photo-storage/middleware/upload.js:28-34 | the answer is `{bucket, key, location}` taken from the upload result |
| StorageMiddleware.UploadError | picture-upload/apps/photo-storage/middleware/upload.js:35-49 | an error with truthy status and code is shown as `{code, message}` with its status; any other is 500 `{code:"InternalServerError", name, message}` |
| StorageMiddleware.UploadMw | picture-upload/apps/photo-storage/middleware/upload.js:14-50 | a body that is not a buffer gets 400 BadRequest with the store untouched; otherwise the store upload of (bucket, photo name, body), answered 200 with its details or with the mapped error |
| StorageMiddleware.BadBodyNeverReachesStore | picture-upload/apps/photo-storage/middleware/upload.js:15-20 | for a non-buffer body the answer does not depend on the store or its connection, and the store is unchanged |
| StorageMiddleware.UploadSucceeds | picture-upload/apps/photo-storage/middleware/upload.js:22-34 | a successful upload answers 200 with the physical bucket, the photo name and the object URL, and the store holds the body |
| StorageMiddleware.GetUrlError | picture-upload/apps/photo-storage/middleware/getUrl.js:18-27 | an error with truthy status and code is shown as `{code, message}`; any other is 500 with exactly `{code:"InternalServerError"}` |
| StorageMiddleware.GetUrlMw | picture-upload/apps/photo-storage/middleware/getUrl.js:14-28 | head first; only after it succeeds is the URL signed; the answer is the URL as text, or the mapped error of whichever step failed |
| StorageMiddleware.SignerUnusedWhenHeadFails | picture-upload/apps/photo-storage/middleware/getUrl.js:15-16 | when head fails, the signer does not affect the answer |
| StorageMiddleware.MissingPhotoIs404 | picture-upload/apps/photo-storage/middleware/getUrl.js:15-24 | a missing photo is answered 404 with code `NotFound`; with the message undefined, its JSON text is that of `{code:"NotFound"}`, which reads back as the code alone |
| StorageMiddleware.AssertGuardStrictest | picture-upload/apps/photo-storage/middleware/assertBucket.js:18-23 | an error assertBucket shows as it is, upload and getUrl show the same way |
| StorageMiddleware.UploadAndGetUrlAgree | picture-upload/apps/photo-storage/middleware/getUrl.js:19-26 | upload and getUrl pick the same status for every error, and the same answer whenever they surface it |
| StorageMiddleware.MessageGuardDiffers | picture-upload/apps/photo-storage/middleware/assertBucket.js:18-25 | an error without a message is 500 for assertBucket but keeps its own status (403) for upload and getUrl |
| StorageServer.IsValidImageMimeType | picture-upload/apps/photo-storage/server.js:20-21 | the body parser's type filter; MimeTypeAccepted states that it holds exactly for the three listed types, and MimeTypeExact that nothing else passes |
| StorageServer.MimeTypeAccepted | picture-upload/apps/photo-storage/server.js:20-21 | a content type is accepted iff it is exactly `image/bmp`, `image/jpeg` or `image/png` |
| StorageServer.MimeTypeExact | picture-upload/apps/photo-storage/server.js:20-21 | other image types, other spellings, parameters and a missing header are refused |
| StorageServer.BodyOf | picture-upload/apps/photo-storage/server.js:25 | the handlers see a raw buffer iff the parser ran on an accepted type and did not fail, and the buffer holds the body |
| StorageServer.ParserErrorReply | picture-upload/apps/photo-storage/server.js:27-33 | a parser error answers iff its status is 413, and then 413 `{code:"EntityTooLarge"}`; any other goes on |
| StorageServer.MatchTemplate | picture-upload/apps/photo-storage/server.js:41 | a matching path has one segment per template part and binds one non-empty value per parameter |
| StorageServer.MatchFill | picture-upload/apps/photo-storage/server.js:41 | a template filled with non-empty values matches and binds those values |
| StorageServer.MatchSound | picture-upload/apps/photo-storage/server.js:41 | a path that matches is the template filled with what it binds |
| StorageServer.Dispatch | picture-upload/apps/photo-storage/server.js:35-53 | the first registered route that matches, with its parameters; none iff no route matches |
| StorageServer.RoutesDisjoint | picture-upload/apps/photo-storage/server.js:35-53 | no request matches two routes |
| StorageServer.PhotoTemplateMatch | picture-upload/apps/photo-storage/server.js:41 | `/bucket/b/photos/p` binds `[b, p]` |
| StorageServer.PhotosTemplateMatch | picture-upload/apps/photo-storage/server.js:47 | `/bucket/b/photos` binds `[b]` |
| StorageServer.PhotoPathDispatch | picture-upload/apps/photo-storage/server.js:40-53 | on a photo path, POST reaches upload, DELETE reaches delete, GET reaches getUrl, and any other method no route |
| StorageServer.TooLargeBeforeRouting | picture-upload/apps/photo-storage/server.js:25-33 | a body over the limit answers 413 on every path and leaves the store alone |
| StorageServer.UnmatchedIs404 | picture-upload/apps/photo-storage/server.js:56-58 | a request no route matches answers 404 `{code:"RouteNotFound"}` |
| StorageServer.MissingPhotoName | picture-upload/apps/photo-storage/server.js:40-53 | a delete or an upload without a photo name matches no route |
| StorageServer.EmptyBucketSegment | picture-upload/apps/photo-storage/server.js:40-53 | a photo path with an empty bucket segment matches no route, whatever the method |
| StorageServer.WelcomeRoute | picture-upload/apps/photo-storage/server.js:35-37 | `GET /` answers the welcome text |
| StorageServer.ListDelegated | picture-upload/apps/photo-storage/server.js:46-47 | `GET /bucket/:bucket/photos` goes to the list handler with the bucket |
| StorageServer.DeleteDelegated | picture-upload/apps/photo-storage/server.js:49-50 | `DELETE /bucket/:bucket/photos/:photo` goes to the delete handler with bucket and photo |
| StorageServer.NoBucketNoUpload | picture-upload/apps/photo-storage/server.js:40-44 | on the upload route, when the bucket cannot be asserted, the answer is assertBucket's error and nothing is stored |
| StorageServer.UnreadBodyIs400 | picture-upload/apps/photo-storage/server.js:25 | a body of another type, a missing body, or a failed parse reaching upload is refused 400 BadRequest |
| StorageServer.ImageUploadStored | picture-upload/apps/photo-storage/server.js:40-44 | an image body on the upload route is answered 200 and ends up under the photo name in the physical bucket, typed `image` |
| StorageServer.GetUrlRoute | picture-upload/apps/photo-storage/server.js:52-53 | `GET /bucket/:bucket/photos/:photo` answers getUrl's reply and leaves the store alone |
| StorageServer.RunHandler | picture-upload/apps/photo-storage/server.js:35-53 | one route's handler chain: the welcome text, assertBucket then upload, the list and delete handlers, getUrl; WelcomeRoute, NoBucketNoUpload, ImageUploadStored, UnreadBodyIs400, ListDelegated, DeleteDelegated and GetUrlRoute state each chain's answer |
| StorageServer.Serve | picture-upload/apps/photo-storage/server.js:25-58 | the whole pipeline: parser, 413 mapping, routes in order, catch-all 404; TooLargeBeforeRouting, UnmatchedIs404 and the route lemmas above state what it answers |
| BucketRegistry.PutError | picture-upload/apps/web-client/middleware/getOrCreateS3BucketId.js:17-29 | without an injected fault, the conditional put fails iff the record exists, and then with ConditionalCheckFailedException |
| BucketRegistry.GetAnswer | picture-upload/apps/web-client/middleware/getOrCreateS3BucketId.js:30-35 | a current read returns the stored `s3BucketId` iff the record exists; a stale read, which the `getItem` without a consistent-read request allows, returns no item; a fault returns its error |
| BucketRegistry.PutFailure | picture-upload/apps/web-client/middleware/getOrCreateS3BucketId.js:38-47 | a missing table is a 500 with the table name and the "may still be initializing" hint; any other error a 500 with its own code and message |
| BucketRegistry.Step | picture-upload/apps/web-client/middleware/getOrCreateS3BucketId.js:16-64 | an existing record is never overwritten; the put comes first, and the read follows iff the put failed its condition; a failure is a 500 leaving `s3Bucket` unchanged; proceeding with a record and a read that is not stale sets `s3Bucket` to it; a stale read after a conflict proceeds with the fresh uuid, which is not stored |
| BucketRegistry.Registry.GetOrCreate | picture-upload/apps/web-client/middleware/getOrCreateS3BucketId.js:16-64 | updates the table and `s3Bucket` and returns the exit and calls exactly as `Step` describes; keeps the table to the single record; after proceeding (without a spurious conflict or a stale read) the table is exactly the record of `s3Bucket` |
| BucketRegistry.FirstClaimWins | picture-upload/apps/web-client/middleware/getOrCreateS3BucketId.js:50-52 | into an empty table the fresh uuid is stored, becomes `s3Bucket` and no read is made |
| BucketRegistry.ConflictReadsRecord | picture-upload/apps/web-client/middleware/getOrCreateS3BucketId.js:29-35 | once claimed, the record is read and its stored id becomes `s3Bucket`; the table is unchanged |
| BucketRegistry.MissingTableHint | picture-upload/apps/web-client/middleware/getOrCreateS3BucketId.js:38-43 | a missing table ends in 500 `{code:"ResourceNotFoundException", message: "<message> - the DynamoDB <table> table may still be initializing"}`, with no read |
| BucketRegistry.OtherPutFailure | picture-upload/apps/web-client/middleware/getOrCreateS3BucketId.js:46-47 | any other put error ends in 500 with its own code and message, with no read |
| BucketRegistry.ReadFailure | picture-upload/apps/web-client/middleware/getOrCreateS3BucketId.js:29-35 | a read that fails after a conflict ends in 500 with the read error's own code and message; the table and `s3Bucket` are unchanged |
| BucketRegistry.SuccessiveCallsAgree | picture-upload/apps/web-client/middleware/getOrCreateS3BucketId.js:19-51 | once a call proceeds, the next call leaves `s3Bucket` as it is, whether it proceeds or fails, when neither read is stale |
| BucketRegistry.Run | picture-upload/apps/web-client/middleware/getOrCreateS3BucketId.js:16-64 | requests handled one after another: each effect is `Step` of the table and `s3Bucket` the previous one left |
| BucketRegistry.RunAfterClaim | picture-upload/apps/web-client/middleware/getOrCreateS3BucketId.js:23 | once the record exists, no later request changes the table; each one that proceeds takes the stored id, or its own uuid when its read was stale |
| BucketRegistry.ClaimedRunAgrees | picture-upload/apps/web-client/middleware/getOrCreateS3BucketId.js:29-35 | once the record exists and no read is stale, every request that proceeds takes the stored id |
| BucketRegistry.RunAgrees | picture-upload/apps/web-client/middleware/getOrCreateS3BucketId.js:16-64 | in any sequence of requests without a stale read, all that proceed agree on `s3Bucket` |
| BucketRegistry.StaleReadDisagrees | picture-upload/apps/web-client/middleware/getOrCreateS3BucketId.js:29-51 | with the record claimed as `A`, a request whose read is stale proceeds with its own uuid `B`, which is not stored, and the next request takes `A` again |
| HttpClient.ConnectionRefusedJson | picture-upload/apps/web-client/middleware/filterGreyscale.js:34-40 | a refused connection becomes `{code, message: "Could not connect to <service> service at <address>:<port>"}` |
| HttpClient.TransportErrorJson | picture-upload/apps/web-client/middleware/filterGreyscale.js:34-47 | ECONNREFUSED gives the connection message; any other transport error gives `{name, message}` |
| HttpClient.ErrParam | picture-upload/apps/web-client/middleware/filterGreyscale.js:21 | the `err` a redirect to `/?err=<err>` carries |
| HttpClient.ErrParamOf | picture-upload/apps/web-client/middleware/filterGreyscale.js:21 | a redirect built with an error carries exactly that error |
| HttpClient.SerialisedErrorRecovered | picture-upload/apps/web-client/middleware/filterGreyscale.js:36 | parsing the serialised error in the redirect's location string gives back the record without its undefined members |
| Json.Stringify | picture-upload/apps/web-client/middleware/upload.js:43 | `JSON.stringify` on strings and flat records: ParseStringify states that `Parse` inverts it up to undefined members, StringifyInjective that equal texts mean equal values |
| Json.ParseStringify | picture-upload/apps/web-client/middleware/upload.js:43 | the serialised text parses back to the value, with undefined members dropped |
| Json.StringifyInjective | picture-upload/apps/web-client/middleware/upload.js:43 | two values with the same text are equal once undefined members are dropped |
| FilterGreyscale.GreyscaleRequest | picture-upload/apps/web-client/middleware/filterGreyscale.js:17-31 | POST to `<filterApiUrl>/greyscale` with the image's buffer as body and its MIME type as content type |
| FilterGreyscale.ErrorRedirect | picture-upload/apps/web-client/middleware/filterGreyscale.js:21 | always a redirect, whose location string carries exactly the given error, whatever it is |
| FilterGreyscale.Classify | picture-upload/apps/web-client/middleware/filterGreyscale.js:33-64 | transport errors serialised; non-200 with a body redirects with its text verbatim, without one with `{"code":"InternalServerError"}`; 200 with a body continues with it, without one FilterFailed; it continues iff 200 with a body |
| FilterGreyscale.ResponseLocals.FilterGreyscale | picture-upload/apps/web-client/middleware/filterGreyscale.js:16-65 | sends the greyscale request once; on continue `editedImage` is the returned body, on a redirect it is unchanged |
| FilterGreyscale.RedirectErrorDecodes | picture-upload/apps/web-client/middleware/filterGreyscale.js:33-64 | every error the step serialises itself parses back as an object from the redirect's location string |
| FilterGreyscale.RefusedConnectionDecodes | picture-upload/apps/web-client/middleware/filterGreyscale.js:34-40 | a refused connection's redirect location string parses back to its code and the photo-filter connection message |
| WebUpload.UploadRequest | picture-upload/apps/web-client/middleware/upload.js:20-38 | POST to `<photoApiUrl>/bucket/<s3Bucket>/photos/<image name>` with `editedImage` as body and the image's MIME type |
| WebUpload.RedirectLocation | picture-upload/apps/web-client/middleware/upload.js:26-29 | `/?err=<err>` when the error is truthy, `/` otherwise |
| WebUpload.RedirectCarriesError | picture-upload/apps/web-client/middleware/upload.js:26-29 | the redirect's location string carries an error iff one was given, and then exactly it |
| WebUpload.UploadError | picture-upload/apps/web-client/middleware/upload.js:40-75 | transport errors serialised; 200 with a truthy body is success, without one UploadFailed; non-200 with a body passes the body on, without one `{code:"InternalServerError"}` |
| WebUpload.UploadErr | picture-upload/apps/web-client/middleware/upload.js:40-75 | an error text exists iff the callback found an error; it is never empty, and parses back to that error without its undefined members |
| WebUpload.Upload | picture-upload/apps/web-client/middleware/upload.js:19-76 | one request and exactly one redirect, given by the classification of the answer |
| WebUpload.HomeIffSucceeded | picture-upload/apps/web-client/middleware/upload.js:57-75 | the redirect is plain `/` iff the storage service answered 200 with a truthy body |
| WebUpload.ErrorRedirectDecodes | picture-upload/apps/web-client/middleware/upload.js:40-75 | every error redirect's location string parses back; a service body is read back as sent, and a refused connection as its code and the photo-storage message |
| WebUpload.TextBodyArrivesQuoted | picture-upload/apps/web-client/middleware/upload.js:68-70 | a text body is passed on in the location string as a quoted JSON string |
| WebUpload.FilterAndUploadDiffer | picture-upload/apps/web-client/middleware/upload.js:68-70 | for the same failed text answer, the greyscale step's redirect and the upload step's differ |
| Homepage.PhotosUrl | picture-upload/apps/web-client/middleware/homepage.js:21 | the list is fetched from `<photoApiUrl>/bucket/<s3Bucket>/photos` |
| Homepage.Classify | picture-upload/apps/web-client/middleware/homepage.js:36-85 | ECONNREFUSED shows the serialised connection error, another error the error object; an unparseable body shows ParseError; 200 with photos shows the URLs, 404 null, other answers the raw body; no body shows "No response body" |
| Homepage.Homepage | picture-upload/apps/web-client/middleware/homepage.js:19-86 | every render is `index` with `bucket = s3Bucket`; a truthy query `err` is shown with no request, otherwise the list is requested and classified |
| Homepage.QueryErrSkipsRequest | picture-upload/apps/web-client/middleware/homepage.js:32-34 | with a query error the page depends on neither the HTTP client nor the parser |
| Homepage.ParseErrorBeforeStatus | picture-upload/apps/web-client/middleware/homepage.js:54-65 | an unparseable body gives the same page for every status, and its error parses back to ParseError and "Could not parse: <body>" |
| Homepage.RefusedConnectionDecodes | picture-upload/apps/web-client/middleware/homepage.js:39-47 | a refused connection is shown as a text that parses back to its code and the photo-storage connection message |
| Homepage.UrlsOnlyFromListing | picture-upload/apps/web-client/middleware/homepage.js:68-70 | URLs are shown iff the answer is 200 and its parsed body lists them, and then exactly that list in order |

## Left out

- The AWS SDK, DynamoDB and the `request` HTTP client are not modelled. Their calls are parameters: the store's actions, an injected fault, the signer, and the send and get functions. Signing, transport and retries are not modelled.
- Concurrency and asynchrony are not modelled. Promise and callback ordering is sequential, and the conditional put is one atomic step. Concurrent first requests are covered only through sequences of requests (`BucketRegistry.RunAgrees`).
- BucketRegistry.SuccessiveCallsAgree: leaves out a put fault that claims ConditionalCheckFailedException while no record exists (`NoSpuriousConflict`). In that case the read finds nothing and the fresh uuid is used without being stored.
- BucketRegistry.SuccessiveCallsAgree: also requires both reads to be current. The `getItem` at `getOrCreateS3BucketId.js:30-35` does not ask for a consistent read, so a read just after another request's put may miss the record, and the request then proceeds with its own uuid (`BucketRegistry.StaleReadDisagrees`).
- BucketRegistry.RunAgrees: leaves out the same spurious conflict and stale reads.
- BucketRegistry.ClaimedRunAgrees: leaves out stale reads, for the same reason.
- BucketRegistry.Registry.GetOrCreate: requires the table to hold at most the one record, as the comment at `getOrCreateS3BucketId.js:19` intends. A table with other records is not modelled.
- StorageMiddleware.MissingPhotoIs404: `None` stands for both an undefined and a null value, which is the same for truthiness but not for JSON.stringify. The exact text `{"code":"NotFound"}` holds for an undefined message. An SDK that reports the body-less 404 with `message: null` would be answered `{"code":"NotFound","message":null}`; `null` members are not modelled (ObjectStore.NotFound).
- CreateBucket on a bucket that already exists succeeds, as in the us-east-1 region. Elsewhere S3 answers 409 BucketAlreadyOwnedByYou, which assertBucket would report on every upload after the first. In the model that 409 can only come from an injected fault.
- Errors thrown by `next()` inside the promise chain are not modelled. In the source they would reach the final catch.
- `JSON.stringify` is modelled only for strings and flat objects with string members, the shapes the handlers build. Nested values, `null` and numbers are left out.
- `JSON.parse` in the home page is a parameter. Its result is given as "unparseable" or "the truthy `photos` list". A truthy `photos` that is not a list of strings is not modelled.
- `buffer.toString()` in the greyscale step is a parameter.
- WebUpload.UploadError: the body is taken to be a string or a flat object. That matches the HTTP client's text default and the shape the tests use.
- S3Store.CursorResumes: requires the last listed key to be non-empty, because an empty cursor is dropped at `stores/s3.js:47`. It covers resuming from the last listed key only. The listing page has no `NextContinuationToken`; the list handler (`listUrls.js`, not part of this model) hands that token out as its cursor, and listPhotos sends it on as `StartAfter`. That paging is not modelled.
- S3Store.ListPhotos: the store's cap of 1000 keys per page is not modelled. A non-positive MaxKeys, which S3 rejects, gives an empty page here. Listing timestamps and sizes are left out.
- Keys are listed in code-point order of Dafny characters, which is the UTF-8 byte order S3 uses. Lone surrogates, which a Dafny `char` cannot hold, are left out.
- Routing is modelled over path segments. Express's case-insensitive matching, trailing-slash tolerance, percent-decoding and HEAD-as-GET are left out.
- The query `err` is taken to be a single string. An array-valued query parameter is left out.
- The 10 MB body limit is not enforced in the model. The parser's failure is an input, `Incoming.parserError`.
- The `err` redirects are modelled as the location string handed to `res.redirect`. Express percent-encodes that string in the Location header, and on the next request the query parser decodes it, turns `+` into a space and ends the value at `&` or `#`. The round-trip lemmas (`HttpClient.SerialisedErrorRecovered`, `WebUpload.ErrorRedirectDecodes`, `FilterGreyscale.RedirectErrorDecodes`, `FilterGreyscale.RefusedConnectionDecodes`) hold for the location string, not for what the home page reads back from `req.query.err`. For example, a message `a+b&c` arrives as `a b`.
- TCP ports in connection errors are strings, which interpolate as the number would.
- The list (`listUrls.js`) and delete (`delete.js`) handlers are only named as route targets (`Delegated`). `multipartToImage.js` and `assertDynamoTable.js` are not part of this model.
- Process bootstrap is not modelled: `app.js`, environment variables, Express setup and the `uuid` generator, whose result is a parameter.
- Not modelled: the photo filter (`main.go`), the X-Ray demo, the browser script, lint configuration and debug logging.
