# File and health-check service: a Dafny model

This project models the request-handling core of a small HTTP service with
two parts.

- A **file lifecycle**. Upload stores a blob in an object-store bucket and
  then writes a metadata row `{id, file_name, url, upload_date}`. Lookup
  reads the row. Delete removes the blob and then the row.
- A **health evaluator** for `GET /healthz`. It rejects requests that carry
  query parameters or a body. It then checks that the database accepts a
  connection and one new `health_check` row. Every other method gets 405.

Each external call is passed in as a parameter: the object store's reply,
`File.create`, `File.findByPk`, `file.destroy()`, `sequelize.authenticate()`
and `HealthCheck.create`. So are the fresh uuid, the store-reported
`Location` and the clock. Each handler returns its response: the status, the
three common headers and the body. The contracts say exactly how each store
changes.

Files:

- `http.dfy` (module `Http`): outcomes of external calls, responses, status
  codes, and the three headers every handler sets.
- `blob_keys.dfy` (module `BlobKeys`): the adapter's string logic. It derives
  the object key `id + "." + extension` and extracts a key from a stored URL.
- `s3_adapter.dfy` (module `S3Adapter`): class `BlobAdapter`. It holds the
  bucket name, the bucket's objects (`map` from key to bytes) and the log of
  requests sent to the store. The log makes "no store call happened"
  something a contract can state.
- `file_controller.dfy` (module `FileLifecycle`): class `FileController`. It
  holds the adapter and the `files` table (`map` from primary key to row).
  The file also has a client method that runs upload, get, delete, get.
- `health_controller.dfy` (module `HealthEvaluator`): the header allow-list
  as a named constant set, the validation predicates, the status function,
  and class `HealthController`. That class holds the append-only
  `health_check` table and its auto-increment counter.

Where the code and its own tests or schema point different ways, the model
follows the code:

- The integration test at `tests/integration/healthcheck.test.js:42-49`
  expects 400 for a request with a header outside the allow-list. The
  controller only logs such headers (`controllers/healthcheckController.js:50-60`).
  `StatusIgnoresHeaders` and `CustomHeaderIsAccepted` state the behaviour as
  written: the test's request gets 200 when the database is healthy.
- The controller's allow-list has seventeen entries
  (`controllers/healthcheckController.js:28-49`). `StandardHeaders` has the
  same seventeen.
- The `files` schema (`models/file.js:15-19`) forbids only a null
  `file_name`, not an empty one, and the controller checks nothing more. So
  the model does not require a file name to be non-empty.

The partial-failure asymmetries are kept as the code has them:

- If `File.create` fails after the blob was stored, the blob stays and no
  row is written (an orphaned blob).
- If the blob deletion throws, the row is kept and the response is 404.
- If the blob is deleted but `destroy` fails, the row is kept and points at
  a deleted blob.

## Model

| member | source | states |
|---|---|---|
| BlobKeys.LastSegment | utils/s3.js:35 | `split(sep).pop()` is the suffix after the last separator. It holds no separator and is preceded by one, or it is the whole string when there is no separator. |
| BlobKeys.LastSegmentOfJoin | utils/s3.js:93 | For every `k` without a separator, the last segment of `prefix + sep + k` is `k`. |
| BlobKeys.Extension | utils/s3.js:35 | The extension holds no ".", ends the file name and is preceded in it by a "."; a name without a "." is its own extension. |
| BlobKeys.DeriveKey | utils/s3.js:35-38 | The key is the fresh id, then a ".", then the file name's dot-free tail after its last "." (the whole name when it holds none). |
| BlobKeys.KeyRoundTrip | utils/s3.js:32-38 | A derived key `id.ext` ends in the file name's extension, and the fresh id can be read back from it. |
| BlobKeys.DistinctIdsDistinctKeys | utils/s3.js:32-38 | Two uploads with different ids never share an object key, whatever their file names. |
| BlobKeys.Contains | utils/s3.js:89 | `includes` is false when the text sought is longer, and true for the empty text. |
| BlobKeys.ContainsIffOccurs | utils/s3.js:89 | `includes` holds exactly when the text sought occurs in the string at some index. |
| BlobKeys.ExtractKey | utils/s3.js:88-96 | The key is missing only when the URL contains "amazonaws.com" and the URL constructor throws. In that branch it is the pathname without its first character, or empty for an empty pathname. Otherwise it is the text after the last "/": it holds no "/", ends the URL and, when the URL has a "/", is preceded by one. A URL with neither "/" nor "amazonaws.com" is returned unchanged. |
| BlobKeys.ExtractKeyAfterSlash | utils/s3.js:92-93 | Outside the amazonaws.com branch, `prefix + "/" + k` maps back to `k` for every `k` without "/". |
| BlobKeys.DeleteTargetsUploadedKey | utils/s3.js:32-96 | A location `base + "/" + key` built from the derived key, with no "/" in the id or the extension and no "amazonaws.com" in the location, leads delete to that same key. |
| BlobKeys.DeleteTargetsUploadedAwsKey | utils/s3.js:32-96 | An amazonaws.com location whose pathname is "/" followed by the derived key leads delete to that same key. |
| S3Adapter.BlobAdapter.BucketDefined | utils/s3.js:13-25 | The bucket counts as defined exactly when `process.env.S3_BUCKET` is set and not empty, the two falsy cases of `!bucketName`. |
| S3Adapter.BlobAdapter.Upload | utils/s3.js:21-72 | Missing or empty bucket: fails before any store request. Otherwise it sends exactly one put for the derived key. A store failure is passed on and leaves the objects unchanged. A success stores the bytes under the key and returns the unchanged file name, the fresh id, the store's Location and the timestamp. |
| S3Adapter.BlobAdapter.Delete | utils/s3.js:79-126 | Missing or empty bucket, or a URL that cannot be parsed: fails before any store request. Otherwise it sends exactly one delete for the extracted key. Success removes that key and returns `success: true` with the message. A store failure is passed on and leaves the objects unchanged. |
| FileLifecycle.FileController.UploadFile | controllers/fileController.js:9-59 | Without a file, or without a bucket: 400 and nothing changes. A failed blob upload gives 400 and no row. A stored blob stays even when the row cannot be written (400, orphan), including when the primary key is taken. Otherwise exactly one row `{id, file_name, url, upload_date}` from the adapter's result is added and echoed with 201. The common headers are always set and row keys stay consistent. |
| FileLifecycle.FileController.GetFile | controllers/fileController.js:61-103 | Changes nothing. Returns 200 exactly when the lookup succeeds and the id is present, with the row's four fields and the requested id. Otherwise returns 404 `Not Found`. |
| FileLifecycle.FileController.DeleteFile | controllers/fileController.js:105-152 | A missing id or failed lookup gives 404 with no store request. Otherwise it deletes the key extracted from the row's `url` first. If that throws, the row stays (404). If it succeeds and `destroy` succeeds, the row is removed (204). If `destroy` fails, the row stays, pointing at a deleted blob (404). |
| FileLifecycle.UploadGetDeleteGet | controllers/fileController.js:25-143 | On an empty bucket and table, with every call succeeding and any store-reported Location from which delete recovers the derived key, upload, get, delete, get answer 201, 200, 204, 404. The 201 and 200 bodies are both `{file_name, id, url, upload_date}` of the upload (`upload_date` as the model stores it), and the bucket ends up empty. |
| FileLifecycle.UploadGetDeleteGetAt | controllers/fileController.js:25-143 | The same round trip for a Location `base + "/" + key`, whether it is a plain URL or an amazonaws.com URL whose pathname is "/" and the key. |
| FileLifecycle.UploadThenGet | controllers/fileController.js:25-94 | After a successful upload into an empty bucket and table, the lookup of the fresh id answers 200 with the body the 201 carried: the uploaded file name, the id, the Location and the stored `upload_date` (see "## Left out" on its rounding). |
| FileLifecycle.DeleteThenGet | controllers/fileController.js:105-143 | The second half of the round trip: deleting the only row, whose url leads to the only stored key, answers 204 and empties both the table and the bucket, and a later lookup answers 404. |
| HealthEvaluator.ToLower | controllers/healthcheckController.js:52 | `toLowerCase` keeps the length and lowers each character. |
| HealthEvaluator.IsStandardHeader | controllers/healthcheckController.js:51-53 | A name already in lower case is standard exactly when it is one of the seventeen listed names. |
| HealthEvaluator.StandardHeaderIgnoresCase | controllers/healthcheckController.js:51-53 | Lower-casing is idempotent, so whether a header name is standard does not depend on its case. |
| HealthEvaluator.NonStandardHeaders | controllers/healthcheckController.js:28-53 | The logged headers are exactly those request headers whose lower-cased name is not among the seventeen allowed names. |
| HealthEvaluator.NonStandardHeadersAppend | controllers/healthcheckController.js:51-53 | Filtering distributes over concatenation, so the logged names keep the request's order. |
| HealthEvaluator.HasQuery | controllers/healthcheckController.js:16 | True exactly when the request has some query key. |
| HealthEvaluator.HasBody | controllers/healthcheckController.js:22 | True exactly when the parsed body has some key. |
| HealthEvaluator.HealthStatus | controllers/healthcheckController.js:15-84 | The status is 200, 400 or 503. It is 400 exactly when the request has a query key or a body key. It is 200 exactly when the shape is valid and both `authenticate` and `create` succeed. |
| HealthEvaluator.StatusIgnoresHeaders | controllers/healthcheckController.js:50-60 | The status is the same whatever the request's header set. |
| HealthEvaluator.CustomHeaderNotStandard | controllers/healthcheckController.js:28-49 | `custom-header` is not on the allow-list. |
| HealthEvaluator.CustomHeaderIsAccepted | tests/integration/healthcheck.test.js:42-49 | A request carrying `custom-header`, as in the test that expects 400, has that header logged as non-standard and gets 200 when the database is healthy. |
| HealthEvaluator.HealthController.GetHealthCheck | controllers/healthcheckController.js:8-85 | Responds with the status above, the common headers and no body. On 200 it appends exactly one row with the next auto-increment id and the timestamp. On 400 or 503 the table and counter are unchanged. Row ids stay strictly increasing. |
| HealthEvaluator.HealthController.HandleUnsupportedMethods | controllers/healthcheckController.js:87-94 | Always 405 with the common headers and no body, whatever the request. It touches no state. |

## Left out

- Logging and metrics (`utils/logger.js`, `utils/metrics.js`): these are fire-and-forget calls; their timers, counters and `process.hrtime` arithmetic are not modelled because they do not affect control flow.
- HTTP bootstrap and routing (`app.js`, `server.js`, `routes/*.js`): not modelled, because they are Express wiring. That wiring is broken as written: the health routes name handlers the controller does not define, `models/index.js` does not export the models the controllers import, the file routes are never mounted, and `applyHeaders` does not exist. The controllers are modelled against abstract stores instead.
- The multipart upload middleware and its 5 MiB limit: not modelled, because it is middleware. `req.file` is an optional value of the model.
- The JSON body parser: not modelled. `req.body` is taken to be the parsed object that the parser always sets, given by its keys.
- `new URL(fileUrl).pathname` in the amazonaws.com branch of key extraction: not modelled, because it is WHATWG URL parsing. It becomes a function parameter that may fail. The parameter is not tied to the store's Location format, which percent-escapes the key: for a file name without "." such as `notes v2` the key is `<id>.notes v2` but the Location's pathname is `/<id>.notes%20v2`, so the source would delete a different key. `DeleteTargetsUploadedAwsKey` therefore assumes a pathname of "/" followed by the key itself; when the escaping changes the key, that assumption fails and the lemma claims nothing.
- `uuidv4()`, `new Date()` and the object store's `Location`: not modelled, because they are randomness, the clock and a foreign service. They are parameters; uuids are not shown to be unique, so the model only proves that distinct ids give distinct keys.
- The databases' and object store's own failure causes: not modelled, because they are foreign services. Each call's outcome is a parameter.
- Concurrency between requests: not modelled. Each handler runs as one atomic step against the stores.
- HealthEvaluator.ToLower: only ASCII letters are lowered, because JavaScript's `toLowerCase` handles all of Unicode and that is out of scope.
- HealthEvaluator.HealthController.GetHealthCheck: a failed insert leaves the auto-increment counter unchanged, because whether the database uses up a value on a failed insert is the database's choice.
- FileLifecycle.FileController.UploadFile: the table stores `upload_date` exactly as given. The `DATE` column on MySQL keeps whole seconds only, so in the source a later lookup can show the timestamp rounded while the 201 echoed its milliseconds. That rounding is not modelled, because it is the database's column type. The round trips `FileLifecycle.UploadThenGet` and `FileLifecycle.UploadGetDeleteGet` inherit this: the file name, id and url of the two bodies agree in the source too, the `upload_date` only up to that rounding.
- FileLifecycle.UploadThenGet: its equal-bodies clause holds of `upload_date` only without the column's whole-second rounding (see the line above).
- FileLifecycle.UploadGetDeleteGet: the same holds of its two bodies' `upload_date`.
