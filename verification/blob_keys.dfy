/**
 The photo bucket's naming: the object key the creator hands out for an
 upload, the public address it derives from that key, and the deleter's
 recovery of the key from a stored address.
 */
module BlobKeys {
  import opened Records
  import opened Text

  const DefaultFileName := "photo.jpg"
  const PublicUrlScheme := "https://"
  const PublicUrlHostSuffix := ".s3.amazonaws.com/"

  /** `body.fileName || 'photo.jpg'`: the file name, unless it is absent or empty. */
  function FileNameOrDefault(fileName: Option<string>): (name: string)
    ensures Truthy(fileName) ==> name == fileName.value
    ensures !Truthy(fileName) ==> name == DefaultFileName
    ensures |name| > 0
  {
    if Truthy(fileName) then fileName.value else DefaultFileName
  }

  /** The object key of an upload: the generated id, a dash, then the file
      name or its default. */
  function UploadKey(uuid: string, fileName: Option<string>): (key: string)
    ensures |key| == |uuid| + 1 + |FileNameOrDefault(fileName)|
    ensures key[..|uuid|] == uuid
    ensures key[|uuid|] == '-'
    ensures key[|uuid| + 1..] == FileNameOrDefault(fileName)
  {
    uuid + "-" + FileNameOrDefault(fileName)
  }

  /** The address at which the bucket serves an object: `https://`, the
      bucket's host, then the key as the last path segment. It always
      mentions the bucket name. */
  function PublicUrl(bucket: string, key: string): (url: string)
    ensures |url| == |PublicUrlScheme| + |bucket| + |PublicUrlHostSuffix| + |key|
    ensures url[..|PublicUrlScheme|] == PublicUrlScheme
    ensures url[|url| - |key|..] == key && url[|url| - |key| - 1] == '/'
    ensures Includes(url, bucket)
  {
    var url := PublicUrlScheme + bucket + (PublicUrlHostSuffix + key);
    IncludesMiddle(PublicUrlScheme, bucket, PublicUrlHostSuffix + key);
    assert url == PublicUrlScheme + bucket + PublicUrlHostSuffix + key;
    url
  }

  /** The deleter's key recovery: the text after the last `/` of the address,
      or the whole address when it has no `/`. */
  function ExtractKey(photoUrl: string): (key: string)
    ensures |key| <= |photoUrl| && photoUrl[|photoUrl| - |key|..] == key
    ensures '/' !in key
    ensures |key| < |photoUrl| ==> photoUrl[|photoUrl| - |key| - 1] == '/'
  {
    LastSegment(photoUrl, '/')
  }

  /** The key the deleter asks the bucket to remove for a stored `photoUrl`:
      only when the address is truthy, its last segment is non-empty and the
      address mentions the bucket name anywhere. */
  function BlobTarget(bucket: string, photoUrl: Option<string>): (target: Option<string>)
    ensures target.Some? <==>
      Truthy(photoUrl) && |ExtractKey(photoUrl.value)| > 0 && Includes(photoUrl.value, bucket)
    ensures target.Some? ==> target.value == ExtractKey(photoUrl.value) && '/' !in target.value
  {
    if Truthy(photoUrl) then
      var key := ExtractKey(photoUrl.value);
      if |key| > 0 && Includes(photoUrl.value, bucket) then Some(key) else None
    else None
  }

  /** Two uploads with different generated ids get different keys, even for
      the same file name. */
  lemma UploadKeysDistinct(uuid1: string, uuid2: string, fileName: Option<string>)
    requires uuid1 != uuid2
    ensures UploadKey(uuid1, fileName) != UploadKey(uuid2, fileName)
  {
    var k1, k2 := UploadKey(uuid1, fileName), UploadKey(uuid2, fileName);
    if |uuid1| == |uuid2| {
      assert k1[..|uuid1|] == uuid1 && k2[..|uuid2|] == uuid2;
    }
  }

  /** Round trip: recovering the key from the public address gives back the
      key exactly when the key contains no `/`; whatever the bucket name is. */
  lemma {:induction false} ExtractKeyOfPublicUrl(bucket: string, key: string)
    ensures ExtractKey(PublicUrl(bucket, key)) == key <==> '/' !in key
  {
    var prefix := PublicUrlScheme + bucket + PublicUrlHostSuffix;
    assert PublicUrl(bucket, key) == prefix + key;
    if '/' !in key {
      LastSegmentAfterSepPrefix(prefix, key, '/');
    } else {
      var _ := LastSegment(prefix + key, '/');
    }
  }

  /** A photo stored at the public address of a `/`-free, non-empty key is
      targeted for deletion under exactly that key. */
  lemma BlobTargetOfPublicUrl(bucket: string, key: string)
    requires |key| > 0 && '/' !in key
    ensures BlobTarget(bucket, Some(PublicUrl(bucket, key))) == Some(key)
  {
    ExtractKeyOfPublicUrl(bucket, key);
  }

  /** An address that only mentions the bucket name, on any host, still
      passes the deleter's check: the check is a substring test, so whatever
      follows the last `/` is targeted. */
  lemma {:induction false} ForeignUrlMentioningBucketIsTargeted(bucket: string, host: string, seg: string)
    requires |seg| > 0 && '/' !in seg
    ensures BlobTarget(bucket, Some(host + bucket + "/" + seg)) == Some(seg)
  {
    var url := host + bucket + "/" + seg;
    assert url == host + bucket + ("/" + seg);
    IncludesMiddle(host, bucket, "/" + seg);
    assert url == (host + bucket + "/") + seg;
    LastSegmentAfterSepPrefix(host + bucket + "/", seg, '/');
  }
}
