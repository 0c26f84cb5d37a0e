/**
 * The file lifecycle (controllers/fileController.js): upload stores the blob
 * and then its metadata row; lookup reads the row; delete removes the blob
 * and then the row. The metadata table is a map from primary key to row;
 * the blob store is the adapter's bucket. Every awaited database call takes
 * its outcome as a parameter.
 */
module FileLifecycle {
  import opened Http
  import opened BlobKeys
  import opened S3Adapter

  /** A row of the `files` table: every column is non-null and `id` is the
      primary key. */
  datatype FileRecord = FileRecord(id: string, file_name: string, url: string, upload_date: string)

  /** `req.file` as the multipart middleware leaves it. */
  datatype UploadedFile = UploadedFile(buffer: Bytes, originalname: string)

  /** The JSON object the handlers send for a row. */
  function RecordJson(rec: FileRecord): Body
  {
    FileJson(rec.file_name, rec.id, rec.url, rec.upload_date)
  }

  const BadRequest := Respond(BAD_REQUEST, ErrorBody("Bad Request"))
  const NotFound := Respond(NOT_FOUND, ErrorBody("Not Found"))

  class FileController {
    /** The blob store the adapter writes to. */
    const blobs: BlobAdapter
    /** The `files` table, keyed by primary key. */
    var files: map<string, FileRecord>

    /** Every row sits under its own primary key. */
    ghost predicate Valid()
      reads this
    {
      forall id | id in files :: files[id].id == id
    }

    constructor (blobs: BlobAdapter, files: map<string, FileRecord>)
      requires forall id | id in files :: files[id].id == id
      ensures this.blobs == blobs && this.files == files && Valid()
    {
      this.blobs := blobs;
      this.files := files;
    }

    /** `uploadFile(req, res)`. `fileId`, `s3Reply` and `now` are what the
        adapter's collaborators yield; `create` is the outcome of
        `File.create`, which also fails when the primary key is taken. */
    method UploadFile(file: Option<UploadedFile>, fileId: string, s3Reply: UploadReply, now: string,
                      create: Outcome)
      returns (resp: Response)
      requires Valid()
      modifies this, blobs
      ensures Valid()
      ensures resp.headers == CommonHeaders && resp.status in {CREATED, BAD_REQUEST}
      // Nothing to upload, or no bucket: nothing is sent and nothing changes.
      ensures file.None? || !blobs.BucketDefined() ==>
                && resp == BadRequest
                && files == old(files)
                && blobs.objects == old(blobs.objects)
                && blobs.requests == old(blobs.requests)
      ensures file.Some? && blobs.BucketDefined() ==>
                var key := DeriveKey(fileId, file.value.originalname);
                && blobs.requests == old(blobs.requests) + [PutObject(blobs.bucket.value, key, file.value.buffer)]
                // The blob upload failed: no row is written.
                && (s3Reply.UploadFailed? ==>
                      resp == BadRequest && files == old(files) && blobs.objects == old(blobs.objects))
                // The blob is stored whatever the database then does.
                && (s3Reply.Uploaded? ==> blobs.objects == old(blobs.objects)[key := file.value.buffer])
                // The row could not be written: the blob is left orphaned.
                && (s3Reply.Uploaded? && (create.Fail? || fileId in old(files)) ==>
                      resp == BadRequest && files == old(files))
                // Exactly one row is added and echoed back.
                && (s3Reply.Uploaded? && create.Ok? && fileId !in old(files) ==>
                      var rec := FileRecord(fileId, file.value.originalname, s3Reply.location, now);
                      files == old(files)[fileId := rec] && resp == Respond(CREATED, RecordJson(rec)))
    {
      if file.None? {
        return BadRequest;
      }
      var info := blobs.Upload(file.value.buffer, file.value.originalname, fileId, s3Reply, now);
      if info.Failure? {
        return BadRequest;
      }
      var rec := FileRecord(info.value.id, info.value.file_name, info.value.url, info.value.upload_date);
      if create.Fail? || rec.id in files {
        return BadRequest;
      }
      files := files[rec.id := rec];
      resp := Respond(CREATED, RecordJson(rec));
    }

    /** `getFile(req, res)` for `req.params.id == id`; `lookup` is the
        outcome of `File.findByPk`. */
    method GetFile(id: string, lookup: Outcome) returns (resp: Response)
      requires Valid()
      ensures resp.headers == CommonHeaders
      ensures resp.status == OK <==> lookup.Ok? && id in files
      ensures lookup.Fail? || id !in files ==> resp == NotFound
      ensures lookup.Ok? && id in files ==>
                && resp == Respond(OK, RecordJson(files[id]))
                && resp.body.id == id
    {
      if lookup.Fail? || id !in files {
        return NotFound;
      }
      resp := Respond(OK, RecordJson(files[id]));
    }

    /** `deleteFile(req, res)` for `req.params.id == id`. `lookup` and
        `destroy` are the outcomes of `File.findByPk` and `file.destroy()`;
        `pathname` and `s3Reply` are what the adapter's collaborators yield. */
    method DeleteFile(id: string, lookup: Outcome, pathname: string -> Option<string>, s3Reply: Outcome,
                      destroy: Outcome)
      returns (resp: Response)
      requires Valid()
      modifies this, blobs
      ensures Valid()
      ensures resp.headers == CommonHeaders && resp.status in {NO_CONTENT, NOT_FOUND}
      // No such row: the blob store is not called.
      ensures lookup.Fail? || id !in old(files) ==>
                && resp == NotFound
                && files == old(files)
                && blobs.objects == old(blobs.objects)
                && blobs.requests == old(blobs.requests)
      ensures lookup.Ok? && id in old(files) ==>
                var key := ExtractKey(old(files)[id].url, pathname);
                // The adapter gave up before calling the store: the row stays.
                && (!blobs.BucketDefined() || key.None? ==>
                      && resp == NotFound
                      && files == old(files)
                      && blobs.objects == old(blobs.objects)
                      && blobs.requests == old(blobs.requests))
                && (blobs.BucketDefined() && key.Some? ==>
                      && blobs.requests == old(blobs.requests) + [DeleteObject(blobs.bucket.value, key.value)]
                      // The blob deletion threw: the row is retained.
                      && (s3Reply.Fail? ==>
                            resp == NotFound && files == old(files) && blobs.objects == old(blobs.objects))
                      && (s3Reply.Ok? ==> blobs.objects == old(blobs.objects) - {key.value})
                      // The blob is gone but the row could not be destroyed.
                      && (s3Reply.Ok? && destroy.Fail? ==> resp == NotFound && files == old(files))
                      && (s3Reply.Ok? && destroy.Ok? ==>
                            resp == Respond(NO_CONTENT, NoBody) && files == old(files) - {id}))
    {
      if lookup.Fail? || id !in files {
        return NotFound;
      }
      var rec := files[id];
      var deleted := blobs.Delete(rec.url, pathname, s3Reply);
      if deleted.Failure? {
        return NotFound;
      }
      if destroy.Fail? {
        return NotFound;
      }
      files := files - {rec.id};
      resp := Respond(NO_CONTENT, NoBody);
    }
  }

  /** Upload, get, delete and get again, against an empty bucket and table,
      with every collaborator succeeding and a store-reported `location`
      from which delete recovers the derived key: the statuses are 201, 200,
      204 and 404, the lookup echoes the created row, and the bucket ends up
      empty. */
  method UploadGetDeleteGet(bucket: string, upload: UploadedFile, fileId: string, location: string, now: string,
                            pathname: string -> Option<string>)
    returns (statuses: seq<int>, bodies: seq<Body>, remaining: map<string, Bytes>)
    requires bucket != ""
    requires ExtractKey(location, pathname) == Some(DeriveKey(fileId, upload.originalname))
    ensures statuses == [CREATED, OK, NO_CONTENT, NOT_FOUND]
    ensures bodies == [FileJson(upload.originalname, fileId, location, now),
                       FileJson(upload.originalname, fileId, location, now)]
    ensures remaining == map[]
  {
    var key := DeriveKey(fileId, upload.originalname);
    var controller, created, found := UploadThenGet(bucket, upload, fileId, location, now);
    var rec := FileRecord(fileId, upload.originalname, location, now);
    var deleted, missing := DeleteThenGet(controller, rec, key, upload.buffer, pathname);
    statuses := [created.status, found.status, deleted.status, missing.status];
    bodies := [created.body, found.body];
    remaining := controller.blobs.objects;
  }

  /** The round trip for the two shapes of location the store reports: a
      plain `base + "/" + key`, or an amazonaws.com URL whose path is "/"
      followed by the key. */
  method UploadGetDeleteGetAt(bucket: string, upload: UploadedFile, fileId: string, base: string, now: string,
                              pathname: string -> Option<string>)
    returns (statuses: seq<int>, remaining: map<string, Bytes>)
    requires bucket != ""
    requires '/' !in fileId && '/' !in Extension(upload.originalname)
    requires var location := base + "/" + DeriveKey(fileId, upload.originalname);
             || !Contains(location, AwsHost)
             || pathname(location) == Some("/" + DeriveKey(fileId, upload.originalname))
    ensures statuses == [CREATED, OK, NO_CONTENT, NOT_FOUND]
    ensures remaining == map[]
  {
    var location := base + "/" + DeriveKey(fileId, upload.originalname);
    if Contains(location, AwsHost) {
      DeleteTargetsUploadedAwsKey(fileId, upload.originalname, location, pathname);
    } else {
      DeleteTargetsUploadedKey(fileId, upload.originalname, base, pathname);
    }
    var bodies;
    statuses, bodies, remaining := UploadGetDeleteGet(bucket, upload, fileId, location, now, pathname);
  }

  /** The first half of the round trip: a successful upload into an empty
      bucket and table, then a lookup of the fresh id that answers with the
      very body the upload answered with. */
  method UploadThenGet(bucket: string, upload: UploadedFile, fileId: string, location: string, now: string)
    returns (controller: FileController, created: Response, found: Response)
    requires bucket != ""
    ensures fresh(controller) && fresh(controller.blobs) && controller.Valid()
    ensures controller.blobs.BucketDefined()
    ensures controller.files == map[fileId := FileRecord(fileId, upload.originalname, location, now)]
    ensures controller.blobs.objects == map[DeriveKey(fileId, upload.originalname) := upload.buffer]
    ensures created.status == CREATED && found.status == OK
    ensures found.body == created.body == FileJson(upload.originalname, fileId, location, now)
  {
    var store := new BlobAdapter(Some(bucket), map[]);
    controller := new FileController(store, map[]);
    created := controller.UploadFile(Some(upload), fileId, Uploaded(location), now, Ok);
    found := controller.GetFile(fileId, Ok);
  }
  /** The second half: deleting the only row, whose url leads to `key`, and
      looking it up again. */
  method DeleteThenGet(controller: FileController, rec: FileRecord, key: string, buffer: Bytes,
                       pathname: string -> Option<string>)
    returns (deleted: Response, missing: Response)
    requires controller.Valid() && controller.blobs.BucketDefined()
    requires controller.files == map[rec.id := rec]
    requires controller.blobs.objects == map[key := buffer]
    requires ExtractKey(rec.url, pathname) == Some(key)
    modifies controller, controller.blobs
    ensures controller.files == map[] && controller.blobs.objects == map[]
    ensures deleted.status == NO_CONTENT && missing.status == NOT_FOUND
  {
    deleted := controller.DeleteFile(rec.id, Ok, pathname, Ok, Ok);
    missing := controller.GetFile(rec.id, Ok);
  }
}
