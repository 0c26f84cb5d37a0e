/**
 * The string logic of the blob-store adapter (utils/s3.js): how the object
 * key is derived from the fresh id and the original file name on upload, and
 * how the key is recovered from a stored URL on delete.
 */
module BlobKeys {
  import opened Http

  /** `s.split([sep]).pop()`: the text after the last `sep`, or all of `s`
      when it holds no `sep`. */
  function LastSegment(s: string, sep: char): (r: string)
    ensures |r| <= |s| && r == s[|s| - |r|..]
    ensures sep !in r
    ensures |r| == |s| || s[|s| - |r| - 1] == sep
    ensures sep !in s ==> r == s
    decreases |s|
  {
    if |s| == 0 || s[|s| - 1] == sep then []
    else LastSegment(s[..|s| - 1], sep) + [s[|s| - 1]]
  }

  /** The segment after the last separator of `prefix + [sep] + k` is `k`
      whenever `k` itself holds no separator. */
  lemma {:induction false} LastSegmentOfJoin(prefix: string, sep: char, k: string)
    requires sep !in k
    ensures LastSegment(prefix + [sep] + k, sep) == k
    decreases |k|
  {
    var s := prefix + [sep] + k;
    if k != [] {
      var k' := k[..|k| - 1];
      assert s[..|s| - 1] == prefix + [sep] + k';
      assert k[|k| - 1] in k;
      LastSegmentOfJoin(prefix, sep, k');
      assert k == k' + [k[|k| - 1]];
    }
  }

  /** `fileName.split(".").pop()`: the dot-free tail of the name after its
      last ".", or the whole name when it holds no ".". */
  function Extension(fileName: string): (ext: string)
    ensures '.' !in ext
    ensures |ext| <= |fileName| && ext == fileName[|fileName| - |ext|..]
    ensures |ext| == |fileName| || fileName[|fileName| - |ext| - 1] == '.'
    ensures '.' !in fileName ==> ext == fileName
  {
    LastSegment(fileName, '.')
  }

  /** The object key `${fileId}.${extension}`: the id, a ".", and then a
      dot-free tail with which the file name ends, preceded in the name by a
      "." unless it is the whole name. */
  function DeriveKey(fileId: string, fileName: string): (key: string)
    ensures |key| > |fileId| && key[..|fileId|] == fileId && key[|fileId|] == '.'
    ensures var tail := key[|fileId| + 1..];
            && '.' !in tail
            && |tail| <= |fileName| && tail == fileName[|fileName| - |tail|..]
            && (|tail| == |fileName| || fileName[|fileName| - |tail| - 1] == '.')
  {
    fileId + "." + Extension(fileName)
  }

  /** The id part of an object key: the text before its last ".", if any. */
  function KeyId(key: string): Option<string>
  {
    var e := LastSegment(key, '.');
    if |e| == |key| then None else Some(key[..|key| - |e| - 1])
  }

  /** A derived key ends in the file name's extension, and the fresh id can
      be read back from it. */
  lemma KeyRoundTrip(fileId: string, fileName: string)
    ensures LastSegment(DeriveKey(fileId, fileName), '.') == Extension(fileName)
    ensures KeyId(DeriveKey(fileId, fileName)) == Some(fileId)
  {
    var ext := Extension(fileName);
    var key := fileId + ['.'] + ext;
    assert DeriveKey(fileId, fileName) == key;
    LastSegmentOfJoin(fileId, '.', ext);
    KeyIdOfJoin(fileId, ext, key);
  }

  /** The text before the last "." of `fileId + "." + ext` is `fileId`. */
  lemma KeyIdOfJoin(fileId: string, ext: string, key: string)
    requires key == fileId + ['.'] + ext
    requires LastSegment(key, '.') == ext
    ensures KeyId(key) == Some(fileId)
  {
    assert |key| - |ext| - 1 == |fileId|;
    assert key[..|fileId|] == fileId;
  }

  /** Two uploads with different ids never share an object key, whatever
      their file names. */
  lemma DistinctIdsDistinctKeys(id1: string, name1: string, id2: string, name2: string)
    requires id1 != id2
    ensures DeriveKey(id1, name1) != DeriveKey(id2, name2)
  {
    KeyRoundTrip(id1, name1);
    KeyRoundTrip(id2, name2);
  }

  /** `sub` occurs in `s` starting at index `i`. */
  predicate OccursAt(s: string, sub: string, i: int)
  {
    0 <= i && i + |sub| <= |s| && s[i..i + |sub|] == sub
  }

  /** `s.includes(sub)` */
  function Contains(s: string, sub: string): (r: bool)
    ensures r ==> |sub| <= |s|
    ensures sub == [] ==> r
    decreases |s|
  {
    if |sub| > |s| then false
    else if s[..|sub|] == sub then true
    else Contains(s[1..], sub)
  }

  /** `includes` holds exactly when the text occurs at some index. */
  lemma {:induction false} ContainsIffOccurs(s: string, sub: string)
    ensures Contains(s, sub) <==> exists i :: OccursAt(s, sub, i)
    decreases |s|
  {
    if |sub| > |s| {
    } else if s[..|sub|] == sub {
      assert OccursAt(s, sub, 0);
    } else {
      ContainsIffOccurs(s[1..], sub);
      if Contains(s[1..], sub) {
        var j :| OccursAt(s[1..], sub, j);
        assert s[1..][j..j + |sub|] == s[j + 1..j + 1 + |sub|];
        assert OccursAt(s, sub, j + 1);
      }
      if i :| OccursAt(s, sub, i) {
        assert i != 0;
        assert s[1..][i - 1..i - 1 + |sub|] == s[i..i + |sub|];
        assert OccursAt(s[1..], sub, i - 1);
      }
    }
  }

  const AwsHost := "amazonaws.com"

  /** `p.slice(1)`: drop the leading character, if there is one. */
  function DropFirst(p: string): string
  {
    if |p| == 0 then p else p[1..]
  }

  /** The key `deleteFile` sends to the store for `fileUrl`. `pathname`
      stands for `new URL(fileUrl).pathname`; it gives None where the URL
      constructor throws. */
  function ExtractKey(fileUrl: string, pathname: string -> Option<string>): (key: Option<string>)
    ensures key.None? <==> Contains(fileUrl, AwsHost) && pathname(fileUrl).None?
    ensures Contains(fileUrl, AwsHost) && pathname(fileUrl).Some? ==>
              var p := pathname(fileUrl).value;
              && (|p| == 0 ==> key == Some([]))
              && (|p| > 0 ==> p == [p[0]] + key.value)
    ensures !Contains(fileUrl, AwsHost) ==>
              && '/' !in key.value
              && |key.value| <= |fileUrl|
              && key.value == fileUrl[|fileUrl| - |key.value|..]
    ensures !Contains(fileUrl, AwsHost) && '/' in fileUrl ==>
              |key.value| < |fileUrl| && fileUrl[|fileUrl| - |key.value| - 1] == '/'
    ensures !Contains(fileUrl, AwsHost) && '/' !in fileUrl ==> key == Some(fileUrl)
  {
    if Contains(fileUrl, AwsHost) then
      match pathname(fileUrl)
      case None => None
      case Some(p) => Some(DropFirst(p))
    else if '/' in fileUrl then
      Some(LastSegment(fileUrl, '/'))
    else
      Some(fileUrl)
  }

  /** Outside the amazonaws.com branch, the key of `prefix + "/" + k` is
      `k` for every `k` without a "/". */
  lemma ExtractKeyAfterSlash(prefix: string, k: string, pathname: string -> Option<string>)
    requires '/' !in k
    requires !Contains(prefix + "/" + k, AwsHost)
    ensures ExtractKey(prefix + "/" + k, pathname) == Some(k)
  {
    assert prefix + "/" + k == prefix + ['/'] + k;
    LastSegmentOfJoin(prefix, '/', k);
  }

  /** Deleting by a location of the form `base + "/" + key` addresses the very
      key that upload derived. */
  lemma DeleteTargetsUploadedKey(fileId: string, fileName: string, base: string,
                                 pathname: string -> Option<string>)
    requires '/' !in fileId && '/' !in Extension(fileName)
    requires !Contains(base + "/" + DeriveKey(fileId, fileName), AwsHost)
    ensures ExtractKey(base + "/" + DeriveKey(fileId, fileName), pathname)
            == Some(DeriveKey(fileId, fileName))
  {
    ExtractKeyAfterSlash(base, DeriveKey(fileId, fileName), pathname);
  }

  /** Deleting by an amazonaws.com location whose path is "/" followed by
      the key the upload derived addresses that very key. */
  lemma DeleteTargetsUploadedAwsKey(fileId: string, fileName: string, location: string,
                                    pathname: string -> Option<string>)
    requires Contains(location, AwsHost)
    requires pathname(location) == Some("/" + DeriveKey(fileId, fileName))
    ensures ExtractKey(location, pathname) == Some(DeriveKey(fileId, fileName))
  {
  }
}
