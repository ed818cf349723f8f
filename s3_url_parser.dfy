/** Splitting an `s3://bucket/key` URL into its bucket and key. */
module S3UrlParser {
  import opened PyStr

  const S3_SCHEME := "s3://"

  /** `S3UrlParser.parse_bucket_and_key(file_url, default_bucket)`. A URL with
      the scheme loses every occurrence of "s3://" (not only the leading
      one) and is split at its first '/'; anything else is a bare key in
      the default bucket. */
  function ParseBucketAndKey(fileUrl: string, defaultBucket: string): (string, string) {
    if StartsWith(fileUrl, S3_SCHEME) then
      var parts := SplitOnce(RemoveAll(fileUrl, S3_SCHEME), '/');
      (parts[0], if |parts| > 1 then parts[1] else "")
    else (defaultBucket, fileUrl)
  }

  /** `SplitOnce` cuts at the first separator. */
  lemma SplitOnceAt(a: string, b: string, sep: char)
    requires sep !in a
    ensures SplitOnce(a + [sep] + b, sep) == [a, b]
  {
    var s := a + [sep] + b;
    assert s[|a|] == sep;
    var parts := SplitOnce(s, sep);
    assert s[|parts[0]|] == sep;
    assert forall k :: 0 <= k < |a| ==> s[k] == a[k] != sep;
    assert forall k :: 0 <= k < |parts[0]| ==> s[k] == parts[0][k] != sep;
    assert |parts[0]| == |a|;
    assert parts[0] == s[..|a|] == a;
    assert parts[1] == s[|a| + 1..] == b;
  }

  /** `s3://` followed by text with no further occurrence of the scheme
      loses exactly its first five characters. */
  lemma RemoveSchemePrefix(rest: string)
    requires forall i: nat :: !OccursAt(rest, S3_SCHEME, i)
    ensures RemoveAll(S3_SCHEME + rest, S3_SCHEME) == rest
  {
    var s := S3_SCHEME + rest;
    assert s[..|S3_SCHEME|] == S3_SCHEME;
    assert s[|S3_SCHEME|..] == rest;
    RemoveAllAbsent(rest, S3_SCHEME);
  }

  /** A URL without the scheme is a key in the default bucket, unchanged. */
  lemma BareKey(fileUrl: string, defaultBucket: string)
    requires !StartsWith(fileUrl, S3_SCHEME)
    ensures ParseBucketAndKey(fileUrl, defaultBucket) == (defaultBucket, fileUrl)
  {
  }

  /** Round trip: the URL built from a bucket without '/' and a key, with
      no "s3://" inside, parses back to that bucket and key, whatever the
      default bucket. */
  lemma ParseComposedUrl(bucket: string, key: string, defaultBucket: string)
    requires '/' !in bucket
    requires forall i: nat :: !OccursAt(bucket + "/" + key, S3_SCHEME, i)
    ensures ParseBucketAndKey(S3_SCHEME + bucket + "/" + key, defaultBucket) == (bucket, key)
  {
    var rest := bucket + "/" + key;
    assert S3_SCHEME + bucket + "/" + key == S3_SCHEME + rest;
    assert StartsWith(S3_SCHEME + rest, S3_SCHEME);
    RemoveSchemePrefix(rest);
    assert rest == bucket + ['/'] + key;
    SplitOnceAt(bucket, key, '/');
  }

  /** "s3://b" with no '/' after the bucket gives an empty key. */
  lemma BucketOnly(bucket: string, defaultBucket: string)
    requires '/' !in bucket
    requires forall i: nat :: !OccursAt(bucket, S3_SCHEME, i)
    ensures ParseBucketAndKey(S3_SCHEME + bucket, defaultBucket) == (bucket, "")
  {
    assert StartsWith(S3_SCHEME + bucket, S3_SCHEME);
    RemoveSchemePrefix(bucket);
  }

  /** "s3://" cannot occur in text made of a part without ':' followed by
      a part without '/': its ':' would have to be followed by two '/'. */
  lemma NoSchemeInside(prefix: string, suffix: string)
    requires ':' !in prefix && '/' !in suffix
    ensures forall i: nat :: !OccursAt(prefix + suffix, S3_SCHEME, i)
  {
    var s := prefix + suffix;
    forall i: nat ensures !OccursAt(s, S3_SCHEME, i) {
      if i + |S3_SCHEME| <= |s| {
        if i + 2 < |prefix| {
          assert s[i..i + 5][2] == prefix[i + 2] != ':';
        } else {
          assert s[i..i + 5][3] == suffix[i + 3 - |prefix|] != '/';
        }
      }
    }
  }

  /** A bucket and key without ':' (and a bucket without '/') round trip:
      no "s3://" can hide inside them. */
  lemma ParseColonFreeUrl(bucket: string, key: string, defaultBucket: string)
    requires ':' !in bucket && '/' !in bucket && ':' !in key
    ensures ParseBucketAndKey(S3_SCHEME + bucket + "/" + key, defaultBucket) == (bucket, key)
  {
    NoSchemeInside(bucket + "/" + key, "");
    assert bucket + "/" + key + "" == bucket + "/" + key;
    ParseComposedUrl(bucket, key, defaultBucket);
  }

  /** The URL form shown in the function's documentation,
      "s3://my-bucket/path/to/file.mp3". */
  lemma DocExampleUrl()
    ensures ParseBucketAndKey(S3_SCHEME + "my-bucket" + "/" + "path/to/file.mp3", "my-bucket")
      == ("my-bucket", "path/to/file.mp3")
  {
    var bucket, dirs, name := "my-bucket", "path/to/", "file.mp3";
    assert ':' !in bucket && '/' !in bucket;
    assert ':' !in dirs && ':' !in name;
    assert dirs + name == "path/to/file.mp3";
    ParseColonFreeUrl(bucket, dirs + name, bucket);
  }

  /** The bare-key form shown in the function's documentation: the same
      object. */
  lemma DocExampleKey()
    ensures ParseBucketAndKey("path/to/file.mp3", "my-bucket") == ("my-bucket", "path/to/file.mp3")
  {
    assert "path/to/file.mp3"[..5][0] != S3_SCHEME[0];
  }

  /** An inner "s3://" is deleted as well: the key comes back without it. */
  lemma InnerSchemeRemoved()
    ensures ParseBucketAndKey("s3://b/x/s3://y", "d") == ("b", "x/y")
  {
    var s := "s3://b/x/s3://y";
    var t0, t1, t2, t3, t4 := "b/x/s3://y", "/x/s3://y", "x/s3://y", "/s3://y", "s3://y";
    assert s[..5] == S3_SCHEME && s[5..] == t0;
    assert t0[..5][0] != S3_SCHEME[0] && t0[1..] == t1;
    assert t1[..5][0] != S3_SCHEME[0] && t1[1..] == t2;
    assert t2[..5][0] != S3_SCHEME[0] && t2[1..] == t3;
    assert t3[..5][0] != S3_SCHEME[0] && t3[1..] == t4;
    assert t4[..5] == S3_SCHEME && t4[5..] == "y";
    assert RemoveAll(t4, S3_SCHEME) == "y";
    assert RemoveAll(t3, S3_SCHEME) == "/y";
    assert RemoveAll(t2, S3_SCHEME) == "x/y";
    assert RemoveAll(t1, S3_SCHEME) == "/x/y";
    assert RemoveAll(t0, S3_SCHEME) == "b/x/y";
    assert RemoveAll(s, S3_SCHEME) == "b/x/y";
    SplitOnceAt("b", "x/y", '/');
    assert "b" + ['/'] + "x/y" == "b/x/y";
  }
}
