/**
 * The blob-store adapter (utils/s3.js): one bucket, named by an environment
 * variable, holding objects under derived keys. Each operation checks the
 * bucket name, sends at most one request to the store and passes a store
 * failure on to its caller.
 */
module S3Adapter {
  import opened Http
  import opened BlobKeys

  type Bytes = seq<bv8>

  /** A request the adapter sends to the object store. */
  datatype StoreRequest =
    | PutObject(bucket: string, key: string, body: Bytes)
    | DeleteObject(bucket: string, key: string)

  /** What `s3.upload(...).promise()` resolves to, or the message it throws. */
  datatype UploadReply = Uploaded(location: string) | UploadFailed(message: string)

  /** The metadata `uploadFile` resolves to. */
  datatype FileInfo = FileInfo(file_name: string, id: string, url: string, upload_date: string)

  /** What `deleteFile` resolves to. */
  datatype DeleteStatus = DeleteStatus(success: bool, message: string)

  /** What the adapter throws: its own error for a missing bucket name, the
      URL constructor's error, or the store's error passed on unchanged. */
  datatype AdapterError = BucketUndefined | InvalidUrl | StoreError(message: string)

  const DeletedMessage := "File deleted successfully"

  class BlobAdapter {
    /** `process.env.S3_BUCKET`, read once when the module loads. */
    const bucket: Option<string>
    /** The bucket's contents, from key to bytes. */
    var objects: map<string, Bytes>
    /** Every request sent to the store so far, oldest first. */
    var requests: seq<StoreRequest>

    constructor (bucket: Option<string>, objects: map<string, Bytes>)
      ensures this.bucket == bucket && this.objects == objects && requests == []
    {
      this.bucket := bucket;
      this.objects := objects;
      requests := [];
    }

    /** `!bucketName` is false. An unset variable and an empty one are both
        falsy; any other value is truthy. */
    predicate BucketDefined(): (r: bool)
      ensures bucket == None ==> !r
      ensures bucket == Some("") ==> !r
      ensures bucket.Some? && bucket.value != "" ==> r
    {
      bucket.Some? && bucket.value != ""
    }

    /** `uploadFile(fileBuffer, fileName)`. `fileId` is the value `uuidv4()`
        returns, `reply` the store's answer and `now` the ISO timestamp of
        the clock when the store has answered. */
    method Upload(fileBuffer: Bytes, fileName: string, fileId: string, reply: UploadReply, now: string)
      returns (r: Result<FileInfo, AdapterError>)
      modifies this
      ensures !BucketDefined() ==>
                r == Failure(BucketUndefined) && objects == old(objects) && requests == old(requests)
      ensures BucketDefined() ==>
                requests == old(requests) + [PutObject(bucket.value, DeriveKey(fileId, fileName), fileBuffer)]
      ensures BucketDefined() && reply.UploadFailed? ==>
                r == Failure(StoreError(reply.message)) && objects == old(objects)
      ensures BucketDefined() && reply.Uploaded? ==>
                && r == Success(FileInfo(fileName, fileId, reply.location, now))
                && objects == old(objects)[DeriveKey(fileId, fileName) := fileBuffer]
    {
      if !BucketDefined() {
        return Failure(BucketUndefined);
      }
      var key := DeriveKey(fileId, fileName);
      requests := requests + [PutObject(bucket.value, key, fileBuffer)];
      match reply
      case UploadFailed(message) =>
        r := Failure(StoreError(message));
      case Uploaded(location) =>
        objects := objects[key := fileBuffer];
        r := Success(FileInfo(fileName, fileId, location, now));
    }

    /** `deleteFile(fileUrl)`. `pathname` stands for
        `new URL(fileUrl).pathname` (None where the constructor throws) and
        `reply` for the store's answer to the delete request. */
    method Delete(fileUrl: string, pathname: string -> Option<string>, reply: Outcome)
      returns (r: Result<DeleteStatus, AdapterError>)
      modifies this
      ensures !BucketDefined() ==>
                r == Failure(BucketUndefined) && objects == old(objects) && requests == old(requests)
      ensures BucketDefined() && ExtractKey(fileUrl, pathname).None? ==>
                r == Failure(InvalidUrl) && objects == old(objects) && requests == old(requests)
      ensures BucketDefined() && ExtractKey(fileUrl, pathname).Some? ==>
                var key := ExtractKey(fileUrl, pathname).value;
                && requests == old(requests) + [DeleteObject(bucket.value, key)]
                && (reply.Ok? ==> r == Success(DeleteStatus(true, DeletedMessage)) && objects == old(objects) - {key})
                && (reply.Fail? ==> r == Failure(StoreError(reply.message)) && objects == old(objects))
    {
      if !BucketDefined() {
        return Failure(BucketUndefined);
      }
      var extracted := ExtractKey(fileUrl, pathname);
      if extracted.None? {
        return Failure(InvalidUrl);
      }
      var key := extracted.value;
      requests := requests + [DeleteObject(bucket.value, key)];
      match reply
      case Fail(message) =>
        r := Failure(StoreError(message));
      case Ok =>
        objects := objects - {key};
        r := Success(DeleteStatus(true, DeletedMessage));
    }
  }
}
