/**
 * What the servlet sees of its collaborators: the objects the store hands
 * back, the answers it gives to the one request being served, the calls the
 * servlet makes on it, and the documents the XML adapter renders (kept as
 * terms: the adapter's output format is not part of this model).
 */
module Storage {
  import opened Wrappers
  import opened Http
  import opened Multipart

  /** A stored object as the store returns it; `modified` is the parsed modification time. */
  datatype StoredObject = StoredObject(
    md5: string,
    contentType: string,
    modified: int,
    customMetadata: seq<(string, string)>,
    content: seq<byte>)

  /** The store's answers for the request at hand. */
  datatype StoreAnswers = StoreAnswers(
    buckets: seq<string>,              // @store.buckets
    bucketExists: bool,                // @store.get_bucket(bucket) is not nil
    fetched: Option<StoredObject>,     // the first @store.get_object
    replicated: Option<StoredObject>,  // @store.get_object after replicate_object
    copied: Option<StoredObject>,      // @store.copy_object
    stored: StoredObject,              // @store.store_object
    combined: StoredObject)            // @store.combine_object_parts

  /**
   * The calls the servlet makes on the store, with the names and keys it
   * passes. Where the servlet passes the bucket object `get_bucket` returned,
   * the call records that bucket's name, and None when `get_bucket` gave nil.
   */
  datatype StoreCall =
    | ListAll
    | GetBucket(bucket: Option<string>)
    | GetObject(bucket: Option<string>, key: Option<string>)
    | ReplicateObject(bucket: Option<string>, key: Option<string>)
    | CopyObject(srcBucket: Option<string>, srcKey: Option<string>, bucket: Option<string>, key: Option<string>)
    | NewBucket(bucket: Option<string>)
    | StoreObject(bucket: Option<string>, key: Option<string>)
    | CombineParts(bucket: Option<string>, uploadId: Option<string>, key: Option<string>, parts: seq<PartEntry>)
    | RemoveObject(bucket: Option<string>, key: Option<string>)
    | RemoveBucket(bucket: Option<string>)

  /** The options LS_BUCKET passes to query_for_range. */
  datatype ListOptions = ListOptions(
    marker: Option<string>,
    prefix: Option<string>,
    maxKeys: Option<string>,
    delimiter: Option<string>)

  /** The documents the XML adapter and the inline templates render. */
  datatype XmlDoc =
    | BucketList(names: seq<string>)
    | BucketQuery(bucket: Option<string>, options: ListOptions)
    | NoSuchBucket(bucket: Option<string>)
    | NoSuchKey(key: Option<string>)
    | AccessPolicy
    | CopyResult(obj: StoredObject)
    | CompleteResult(obj: StoredObject)
    | InitiateUpload(bucket: Option<string>, key: Option<string>, uploadId: string)
    | PostResponse(location: string, bucket: Option<string>, storedKey: string, etag: string)

  /** What `response.body` holds. */
  datatype Body =
    | Text(text: string)       // a string, "" included
    | Xml(doc: XmlDoc)         // a rendered document
    | Bytes(bytes: seq<byte>)  // what io.read returned
    | NilBody                  // io.read returned nil
    | File(file: seq<byte>)    // the object's io, sent whole

  /** `response.status`: WEBrick keeps whatever it is given, a form's string included. */
  datatype Status = Code(code: int) | Given(text: string)

  /** A response as the servlet leaves it, header names as WEBrick stores them. */
  datatype Reply = Reply(status: Status, header: map<string, string>, body: Body)

  /** A fresh WEBrick response: 200, no headers, an empty body. */
  const Fresh := Reply(Code(200), map[], Text(""))

  /** `"\"#{md5}\""`. */
  function Quoted(md5: string): string {
    "\"" + md5 + "\""
  }

  const CorsNames: set<string> :=
    {"access-control-allow-origin", "access-control-allow-headers", "access-control-expose-headers"}

  /** The CORS headers set at the end of do_multipartPUT and do_POST. */
  function CorsHeaders(h: map<string, string>): (r: map<string, string>)
    ensures r.Keys == h.Keys + CorsNames
    ensures r["access-control-allow-origin"] == "*" && r["access-control-expose-headers"] == "ETag"
    ensures r["access-control-allow-headers"] == "Authorization, Content-Length"
    ensures forall k :: k in h && k !in CorsNames ==> r[k] == h[k]
  {
    h["access-control-allow-origin" := "*"]
     ["access-control-allow-headers" := "Authorization, Content-Length"]
     ["access-control-expose-headers" := "ETag"]
  }

  /** The `x-amz-meta-` headers copied from an object's custom metadata, in order. */
  function MetadataHeaders(h: map<string, string>, md: seq<(string, string)>): map<string, string>
    decreases |md|
  {
    if md == [] then h
    else MetadataHeaders(h, md[..|md| - 1])[MetaPrefix + md[|md| - 1].0 := md[|md| - 1].1]
  }

  /** Distinct metadata names: a Ruby hash never repeats a key. */
  predicate DistinctNames(md: seq<(string, string)>) {
    forall i, j :: 0 <= i < j < |md| ==> md[i].0 != md[j].0
  }

  /** The header names the metadata is copied under. */
  function MetadataNames(md: seq<(string, string)>): (r: set<string>)
    ensures forall i :: 0 <= i < |md| ==> MetaPrefix + md[i].0 in r
    ensures forall k :: k in r ==> exists i :: 0 <= i < |md| && k == MetaPrefix + md[i].0
    decreases |md|
  {
    if md == [] then {}
    else
      var r := MetadataNames(md[..|md| - 1]);
      assert forall i :: 0 <= i < |md| - 1 ==> md[..|md| - 1][i] == md[i];
      r + {MetaPrefix + md[|md| - 1].0}
  }

  const MetaPrefix := "x-amz-meta-"

  /** Copying the metadata adds exactly its header names and changes no other header. */
  lemma {:induction false} MetadataHeadersKeys(h: map<string, string>, md: seq<(string, string)>)
    ensures MetadataHeaders(h, md).Keys == h.Keys + MetadataNames(md)
    ensures forall k :: k in h && k !in MetadataNames(md) ==> MetadataHeaders(h, md)[k] == h[k]
    decreases |md|
  {
    if md != [] {
      MetadataHeadersKeys(h, md[..|md| - 1]);
    }
  }

  /** With distinct names, every metadata entry's header carries its value. */
  lemma {:induction false} MetadataHeadersValues(h: map<string, string>, md: seq<(string, string)>)
    requires DistinctNames(md)
    ensures forall i :: 0 <= i < |md| ==>
      MetaPrefix + md[i].0 in MetadataHeaders(h, md) && MetadataHeaders(h, md)[MetaPrefix + md[i].0] == md[i].1
    decreases |md|
  {
    if md != [] {
      var init := md[..|md| - 1];
      var last := md[|md| - 1];
      assert DistinctNames(init);
      MetadataHeadersValues(h, init);
      MetadataHeadersKeys(h, md);
      forall i | 0 <= i < |md|
        ensures MetaPrefix + md[i].0 in MetadataHeaders(h, md) && MetadataHeaders(h, md)[MetaPrefix + md[i].0] == md[i].1
      {
        if i < |init| {
          assert init[i] == md[i];
          PrefixCancels(MetaPrefix, md[i].0, last.0);
        }
      }
    }
  }

  lemma PrefixCancels(p: string, a: string, b: string)
    requires a != b
    ensures p + a != p + b
  {
    assert (p + a)[|p|..] == a;
    assert (p + b)[|p|..] == b;
  }

  /**
   * The LS_BUCKET options as server.rb:85-90 read them: the page size comes
   * from a "max_keys" parameter.
   */
  function ListOptionsAsWritten(q: Query): (r: ListOptions)
    ensures r.marker == QueryValue(q, "marker") && r.prefix == QueryValue(q, "prefix")
    ensures r.maxKeys == QueryValue(q, "max_keys") && r.delimiter == QueryValue(q, "delimiter")
  {
    ListOptions(QueryValue(q, "marker"), QueryValue(q, "prefix"), QueryValue(q, "max_keys"), QueryValue(q, "delimiter"))
  }

  /** The options as S3 clients send them: the page size is the "max-keys" parameter. */
  function ListOptionsOf(q: Query): (r: ListOptions)
    ensures r.marker == QueryValue(q, "marker") && r.prefix == QueryValue(q, "prefix")
    ensures r.maxKeys == QueryValue(q, "max-keys") && r.delimiter == QueryValue(q, "delimiter")
  {
    ListOptions(QueryValue(q, "marker"), QueryValue(q, "prefix"), QueryValue(q, "max-keys"), QueryValue(q, "delimiter"))
  }

  /** A client asking for a page of 2 keys: as written the request reaches the store without a page size. */
  lemma MaxKeysIgnoredAsWritten()
    ensures ListOptionsAsWritten(map["max-keys" := "2"]).maxKeys == None
    ensures ListOptionsOf(map["max-keys" := "2"]).maxKeys == Some("2")
  {
    assert "max_keys" != "max-keys" by {
      assert "max_keys"[3] != "max-keys"[3];
    }
  }
}
