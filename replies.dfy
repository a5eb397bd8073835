/**
 * What each handler of FakeS3::Servlet leaves behind (server.rb:71-352):
 * the response, the calls it makes on the store, and the exception that
 * escapes it, as functions of the request, the configuration and the
 * store's answers. The imperative handlers in module Handlers are proved to
 * compute exactly these.
 */
module Replies {
  import opened Wrappers
  import opened RubyText
  import opened Http
  import opened Addressing
  import opened Requests
  import opened Multipart
  import opened Ranges
  import opened Storage

  /** The servlet's settings and the library services it relies on. */
  datatype Config = Config(
    hostname: string,                 // @hostname, the root name of virtual-host addressing
    port: int,                        // @port, used in a form POST's Location
    replicate: bool,                  // @replicate
    isIpLiteral: string -> bool,      // IPAddr.new(host) succeeds
    httpDate: string -> Option<int>,  // Time.httpdate: None when it raises
    formatHttpDate: int -> string)    // Time#httpdate

  /** A handler's effect: the response, the store calls in order, and the exception raised, if any. */
  datatype Outcome = Outcome(reply: Reply, calls: seq<StoreCall>, fault: Option<Fault>)

  /** normalize_request with the servlet's root hostnames. */
  function Classify(c: Config, req: HttpRequest): Result<S3Request, Fault> {
    NormalizeRequest(RootHostnames(c.hostname), c.isIpLiteral, req)
  }

  /** An exception raised before the handler touched the response. */
  function Raised(e: Fault): (o: Outcome)
    ensures o.reply == Fresh && o.calls == [] && o.fault == Some(e)
  {
    Outcome(Fresh, [], Some(e))
  }

  const XmlType := map["content-type" := "application/xml"]

  /** The 404 answer for a missing key, before and after the handler's other headers. */
  function NoSuchKeyReply(h: map<string, string>, key: Option<string>): Reply {
    Reply(Code(404), h["content-type" := "application/xml"], Xml(NoSuchKey(key)))
  }

  /** What `@store.get_bucket(s.bucket)` returned, by name: None when it returned nil. */
  function BucketObject(s: S3Request, st: StoreAnswers): (b: Option<string>)
    ensures b.Some? <==> st.bucketExists && s.bucket.Some?
    ensures b.Some? ==> b == s.bucket
  {
    if st.bucketExists then s.bucket else None
  }

  /** `get_bucket`, then `create_bucket` when there is none, then `store_object` under key. */
  function StoreCalls(bucket: Option<string>, key: Option<string>, found: bool): (calls: seq<StoreCall>)
    ensures |calls| == if found then 2 else 3
    ensures calls[0] == GetBucket(bucket) && calls[|calls| - 1] == StoreObject(bucket, key)
    ensures NewBucket(bucket) in calls <==> !found
  {
    [GetBucket(bucket)] + (if found then [] else [NewBucket(bucket)]) + [StoreObject(bucket, key)]
  }

  // ---------------------------------------------------------------------------
  // do_GET (server.rb:71-176)
  // ---------------------------------------------------------------------------

  /** The headers of a served object (server.rb:131-144): fixed ones, then its metadata. */
  function ObjectHeaders(c: Config, o: StoredObject): map<string, string> {
    MetadataHeaders(FixedHeaders(c, o), o.customMetadata)
  }

  /** The whole object with its length (server.rb:169-174): HEAD gets an empty body. */
  function WholeObject(status: Status, h: map<string, string>, verb: string, o: StoredObject): Reply {
    Reply(status, h["content-length" := IntString(|o.content|)],
      if verb == "HEAD" then Text("") else File(o.content))
  }

  /** A served object once no conditional header has stopped the request (server.rb:130-174). */
  function ServeObject(c: Config, req: HttpRequest, s: S3Request, o: StoredObject): (Reply, Option<Fault>) {
    var h := ObjectHeaders(c, o);
    match HeaderFirst(req.header, "range")
    case None => (WholeObject(Code(200), h, s.httpVerb, o), None)
    case Some(range) =>
      match ParseRange(range)
      case None => (WholeObject(Code(206), h, s.httpVerb, o), None)
      case Some((first, last)) =>
        var p := PlanAsWritten(first, last, |o.content|);
        var h' := h["content-range" := p.contentRange];
        match IoRead(o.content, p.start, p.toRead)
        case Failure(e) => (Reply(Code(206), h', Text("")), Some(e))
        case Success(None) => (Reply(Code(206), h', NilBody), None)
        case Success(Some(bytes)) => (Reply(Code(206), h', Bytes(bytes)), None)
  }

  /** `@store.get_object`, and when it finds nothing and replication is on, replicate and fetch again. */
  function FetchCalls(c: Config, s: S3Request, st: StoreAnswers): seq<StoreCall> {
    [GetObject(s.bucket, s.obj)] +
      (if st.fetched.None? && c.replicate
       then [ReplicateObject(s.bucket, s.obj), GetObject(s.bucket, s.obj)] else [])
  }

  function Fetched(c: Config, st: StoreAnswers): Option<StoredObject> {
    if st.fetched.None? && c.replicate then st.replicated else st.fetched
  }

  /** `request["If-None-Match"]` names the object's ETag or is "*". */
  predicate NoneMatchHit(req: HttpRequest, o: StoredObject) {
    var v := HeaderText(req.header, "if-none-match");
    v == Some(Quoted(o.md5)) || v == Some("*")
  }

  /** The GET branch of do_GET (server.rb:104-175). */
  function GetObjectOutcome(c: Config, req: HttpRequest, s: S3Request, st: StoreAnswers): Outcome {
    var calls := FetchCalls(c, s, st);
    match Fetched(c, st)
    case None => Outcome(NoSuchKeyReply(map[], s.obj), calls, None)
    case Some(o) =>
      if NoneMatchHit(req, o) then Outcome(Fresh.(status := Code(304)), calls, None)
      else
        match HeaderText(req.header, "if-modified-since")
        case Some(text) =>
          (match c.httpDate(text)
           case None => Outcome(Fresh, calls, Some(InvalidHttpDate))
           case Some(t) =>
             if t >= o.modified then Outcome(Fresh.(status := Code(304)), calls, None)
             else var (r, f) := ServeObject(c, req, s, o); Outcome(r, calls, f))
        case None =>
          var (r, f) := ServeObject(c, req, s, o); Outcome(r, calls, f)
  }

  /** do_GET, for GET and HEAD alike. */
  function GetReply(c: Config, req: HttpRequest, st: StoreAnswers): Outcome {
    match Classify(c, req)
    case Failure(e) => Raised(e)
    case Success(s) =>
      if s.requestType == Some(ListBuckets) then
        Outcome(Reply(Code(200), XmlType, Xml(BucketList(st.buckets))), [ListAll], None)
      else if s.requestType == Some(LsBucket) then
        if st.bucketExists then
          Outcome(Reply(Code(200), XmlType, Xml(BucketQuery(s.bucket, ListOptionsAsWritten(s.query.GetOr(map[]))))),
            [GetBucket(s.bucket)], None)
        else Outcome(Reply(Code(404), XmlType, Xml(NoSuchBucket(s.bucket))), [GetBucket(s.bucket)], None)
      else if s.requestType == Some(GetAcl) then
        Outcome(Reply(Code(200), XmlType, Xml(AccessPolicy)), [], None)
      else if s.requestType == Some(Get) then GetObjectOutcome(c, req, s, st)
      else Outcome(Fresh, [], None)
  }

  // ---------------------------------------------------------------------------
  // do_PUT and do_multipartPUT (server.rb:178-257)
  // ---------------------------------------------------------------------------

  /** What do_PUT sets before it looks at the operation (server.rb:184-187). */
  const PutBase := Reply(Code(200), map["content-type" := "text/xml", "access-control-allow-origin" := "*"], Text(""))

  /** The name a part is stored under (server.rb:215-219). */
  function PartNameOf(req: HttpRequest, s: S3Request): string {
    PartName(ParamFirst(req.params, "uploadId").GetOr(""), s.obj, ParamFirst(req.params, "partNumber"))
  }

  /**
   * do_multipartPUT (server.rb:213-257). It classifies the request a second
   * time; classification is a function of the request, so s is the same record.
   */
  function MultipartPutOutcome(req: HttpRequest, s: S3Request, st: StoreAnswers): Outcome {
    var name := PartNameOf(req, s);
    if s.requestType == Some(Copy) then
      var calls := [CopyObject(s.srcBucket, s.srcObject, s.bucket, Some(name))];
      match st.copied
      case None => Outcome(NoSuchKeyReply(map[], s.obj), calls, None)
      case Some(o) => Outcome(Reply(Code(200), CorsHeaders(map["content-type" := "text/xml"]), Xml(CopyResult(o))), calls, None)
    else
      Outcome(Reply(Code(200), CorsHeaders(map["ETag" := Quoted(st.stored.md5)]), Text("")),
        StoreCalls(s.bucket, Some(name), st.bucketExists), None)
  }

  /** do_multipartPUT as a handler of its own: it classifies the request again. */
  function MultipartPutReply(c: Config, req: HttpRequest, st: StoreAnswers): Outcome {
    match Classify(c, req)
    case Failure(e) => Raised(e)
    case Success(s) => MultipartPutOutcome(req, s, st)
  }

  /** do_PUT once it knows the request is not a part upload (server.rb:184-210). */
  function PlainPutOutcome(s: S3Request, st: StoreAnswers): Outcome {
    if s.requestType == Some(Copy) then
      var calls := [CopyObject(s.srcBucket, s.srcObject, s.bucket, s.obj)];
      match st.copied
      case None => Outcome(NoSuchKeyReply(PutBase.header, s.obj), calls, None)
      case Some(o) => Outcome(PutBase.(body := Xml(CopyResult(o))), calls, None)
    else if s.requestType == Some(Store) then
      Outcome(PutBase.(header := PutBase.header["ETag" := Quoted(st.stored.md5)]),
        StoreCalls(s.bucket, s.obj, st.bucketExists), None)
    else if s.requestType == Some(CreateBucket) then
      Outcome(PutBase, [NewBucket(s.bucket)], None)
    else Outcome(PutBase, [], None)
  }

  /** do_PUT (server.rb:178-211): a request naming an uploadId is a part upload. */
  function PutReply(c: Config, req: HttpRequest, st: StoreAnswers): Outcome {
    match Classify(c, req)
    case Failure(e) => Raised(e)
    case Success(s) =>
      if ParamFirst(req.params, "uploadId").Some? then MultipartPutOutcome(req, s, st)
      else PlainPutOutcome(s, st)
  }

  // ---------------------------------------------------------------------------
  // do_POST (server.rb:259-328)
  // ---------------------------------------------------------------------------

  const FormType := "multipart/form-data; boundary="
  const FilenameOpen := "filename=\""

  /** `content_type =~ /^multipart\/form-data; boundary=(.+)/`, anchored at the start of the value. */
  predicate IsFormUpload(contentType: Option<string>) {
    contentType.Some? && StartsWith(contentType.value, FormType) &&
    LineLength(contentType.value[|FormType|..]) >= 1
  }

  /** The capture of `/filename="(.*)"/` when the match starts at k. */
  function FilenameAt(body: string, k: nat): (r: Option<string>)
    requires k <= |body|
    ensures r.Some? ==> '\n' !in r.value
  {
    if StartsWith(body[k..], FilenameOpen) then GreedyCapture(body[k + |FilenameOpen|..], "\"", 0) else None
  }

  /** A match starts at k iff `filename="` starts there and a '"' follows on the same line. */
  lemma FilenameAtIff(body: string, k: nat)
    requires k <= |body|
    ensures FilenameAt(body, k).Some? <==>
      (StartsWith(body[k..], FilenameOpen) && var t := body[k + |FilenameOpen|..]; '"' in t[..LineLength(t)])
  {
    if StartsWith(body[k..], FilenameOpen) {
      var t := body[k + |FilenameOpen|..];
      var r := GreedyCapture(t, "\"", 0);
      assert r.Some? ==> t[..LineLength(t)][|r.value|] == '"';
      assert '"' in t[..LineLength(t)] ==> r.Some? by {
        if '"' in t[..LineLength(t)] {
          var j :| 0 <= j < LineLength(t) && t[..LineLength(t)][j] == '"';
          assert t[j..][..1] == "\"";
        }
      }
    }
  }

  /** No match starts at any position from i up to (not including) k. */
  predicate NoFilenameBetween(body: string, i: nat, k: nat)
    requires i <= k <= |body| + 1
  {
    forall j :: i <= j < k && j <= |body| ==> FilenameAt(body, j).None?
  }

  /** With no match at i, "none from i" is "none from i + 1". */
  lemma NoFilenameBetweenCons(body: string, i: nat, k: nat)
    requires i < k <= |body| + 1 && i < |body| && FilenameAt(body, i).None?
    ensures NoFilenameBetween(body, i, k) <==> NoFilenameBetween(body, i + 1, k)
  {
  }

  /** The capture of `/filename="(.*)"/` for the leftmost match at or after i. */
  function FilenameFrom(body: string, i: nat): (r: Option<string>)
    requires i <= |body|
    ensures r.Some? ==> '\n' !in r.value
    decreases |body| - i
  {
    if FilenameAt(body, i).Some? then FilenameAt(body, i)
    else if i == |body| then None
    else FilenameFrom(body, i + 1)
  }

  /** FilenameFrom is the leftmost match: some k matches with none before it, and None iff no position matches. */
  lemma {:induction false} FilenameLeftmost(body: string, i: nat)
    requires i <= |body|
    ensures FilenameFrom(body, i).Some? ==>
      exists k :: i <= k <= |body| && FilenameAt(body, k) == FilenameFrom(body, i) && NoFilenameBetween(body, i, k)
    ensures FilenameFrom(body, i).None? <==> NoFilenameBetween(body, i, |body| + 1)
    decreases |body| - i
  {
    if FilenameAt(body, i).Some? {
      assert NoFilenameBetween(body, i, i);
    } else if i == |body| {
      assert NoFilenameBetween(body, i, |body| + 1);
    } else {
      FilenameLeftmost(body, i + 1);
      NoFilenameBetweenCons(body, i, |body| + 1);
      if FilenameFrom(body, i).Some? {
        var k :| i + 1 <= k <= |body| && FilenameAt(body, k) == FilenameFrom(body, i + 1) && NoFilenameBetween(body, i + 1, k);
        NoFilenameBetweenCons(body, i, k);
      }
    }
  }

  /** The uploaded file's name, 'default' when the body names none. */
  function FormFilename(body: string): string {
    FilenameFrom(body, 0).GetOr("default")
  }

  /** The URL of a stored form upload: `http://#{bucket}.localhost:#{@port}/#{key}`. */
  function FormLocation(c: Config, bucket: Option<string>, key: string): string {
    "http://" + bucket.GetOr("") + ".localhost:" + IntString(c.port) + "/" + key
  }

  /** The headers do_POST sets last (server.rb:324-327). */
  function PostHeaders(h: map<string, string>): map<string, string> {
    CorsHeaders(h["content-type" := "text/xml"])
  }

  /** A browser form upload (server.rb:290-320), before the closing headers. */
  function FormOutcome(c: Config, req: HttpRequest, s: S3Request, st: StoreAnswers): Outcome {
    match QueryValue(req.query, "key")
    case None => Raised(NoMethodOnNil)
    case Some(template) =>
      var key := Gsub(template, "${filename}", FormFilename(BodyText(req)));
      var etag := Quoted(st.stored.md5);
      var calls := StoreCalls(s.bucket, Some(key), st.bucketExists);
      match QueryValue(req.query, "success_action_redirect")
      case Some(url) => Outcome(Reply(Code(307), map["etag" := etag, "location" := url], Text("")), calls, None)
      case None =>
        var status := match QueryValue(req.query, "success_action_status")
          case Some(code) => Given(code)
          case None => Code(204);
        var body := if status == Given("201")
          then Xml(PostResponse(FormLocation(c, s.bucket, key), s.bucket, key, etag)) else Text("");
        Outcome(Reply(status, map["etag" := etag], body), calls, None)
  }

  /** The branch of do_POST the parameters select (server.rb:264-322). */
  function PostBranch(c: Config, req: HttpRequest, s: S3Request, st: StoreAnswers, uploadId: string): Outcome {
    if "uploads" in req.params then
      Outcome(Fresh.(body := Xml(InitiateUpload(s.bucket, QueryValue(req.query, "key"), uploadId))), [], None)
    else if "uploadId" in req.params then
      Outcome(Fresh.(body := Xml(CompleteResult(st.combined))),
        [GetBucket(s.bucket),
         CombineParts(BucketObject(s, st), ParamFirst(req.params, "uploadId"), s.obj, ManifestParts(BodyText(req)))],
        None)
    else if IsFormUpload(HeaderText(req.header, "content-type")) then FormOutcome(c, req, s, st)
    else Raised(BadRequest)
  }

  /** The closing headers are set only when the branch did not raise. */
  function ClosePost(o: Outcome): Outcome {
    if o.fault.Some? then o else o.(reply := o.reply.(header := PostHeaders(o.reply.header)))
  }

  /** do_POST; uploadId is what SecureRandom.hex returns. */
  function PostReply(c: Config, req: HttpRequest, st: StoreAnswers, uploadId: string): Outcome {
    match Classify(c, req)
    case Failure(e) => Raised(e)
    case Success(s) => ClosePost(PostBranch(c, req, s, st, uploadId))
  }

  // ---------------------------------------------------------------------------
  // do_DELETE and do_OPTIONS (server.rb:330-352)
  // ---------------------------------------------------------------------------

  /** do_DELETE. */
  function DeleteReply(c: Config, req: HttpRequest, st: StoreAnswers): Outcome {
    match Classify(c, req)
    case Failure(e) => Raised(e)
    case Success(s) =>
      var calls :=
        if s.requestType == Some(DeleteObject) then [GetBucket(s.bucket), RemoveObject(BucketObject(s, st), s.obj)]
        else if s.requestType == Some(DeleteBucket) then [RemoveBucket(s.bucket)]
        else [];
      Outcome(Reply(Code(204), map[], Text("")), calls, None)
  }

  const OptionsNames: set<string> := {
    "access-control-allow-origin", "access-control-allow-methods",
    "access-control-allow-headers", "access-control-expose-headers"}

  /** The CORS preflight headers do_OPTIONS adds to the response (server.rb:345-352). */
  function OptionsHeaders(h: map<string, string>): (r: map<string, string>)
    ensures r.Keys == h.Keys + OptionsNames
    ensures r["access-control-allow-origin"] == "*"
    ensures r["access-control-allow-methods"] == "PUT, POST, HEAD, GET, OPTIONS"
    ensures r["access-control-allow-headers"] == "Accept, Content-Type, Authorization, Content-Length, ETag"
    ensures r["access-control-expose-headers"] == "ETag"
    ensures forall k :: k in h && k !in OptionsNames ==> r[k] == h[k]
  {
    h["access-control-allow-origin" := "*"]
     ["access-control-allow-methods" := "PUT, POST, HEAD, GET, OPTIONS"]
     ["access-control-allow-headers" := "Accept, Content-Type, Authorization, Content-Length, ETag"]
     ["access-control-expose-headers" := "ETag"]
  }

  // ---------------------------------------------------------------------------
  // What a client can rely on
  // ---------------------------------------------------------------------------

  /** The classification of GET and HEAD reads no header but Host. */
  lemma GetClassifiedByHost(c: Config, req: HttpRequest, h: Headers)
    requires req.verb == "GET" || req.verb == "HEAD"
    requires HeaderValues(h, "host") == HeaderValues(req.header, "host")
    ensures Classify(c, req.(header := h)) == Classify(c, req)
  {
    var req' := req.(header := h);
    var roots := RootHostnames(c.hostname);
    assert HeaderText(h, "host") == HeaderText(req.header, "host");
    var r := Resolve(roots, c.isIpLiteral, req);
    assert Resolve(roots, c.isIpLiteral, req') == r;
    if r.Success? {
      assert NormalizeGet(req', r.value) == NormalizeGet(req, r.value);
      assert Classify(c, req) == NormalizeGet(req, r.value);
      assert Classify(c, req') == NormalizeGet(req', r.value);
    }
  }

  /** A missing key is answered 404 before any conditional or Range header is looked at. */
  lemma MissingKeyIgnoresConditionals(c: Config, req: HttpRequest, h: Headers, st: StoreAnswers, s: S3Request)
    requires req.verb == "GET" || req.verb == "HEAD"
    requires HeaderValues(h, "host") == HeaderValues(req.header, "host")
    requires Classify(c, req) == Success(s) && s.requestType == Some(Get)
    requires Fetched(c, st).None?
    ensures GetReply(c, req.(header := h), st) == GetReply(c, req, st)
    ensures var r := GetReply(c, req, st).reply;
      r.status == Code(404) && r.header == XmlType && r.body == Xml(NoSuchKey(s.obj))
    ensures GetReply(c, req, st).fault.None?
  {
    GetClassifiedByHost(c, req, h);
    GetRouting(c, req, st, s);
    GetRouting(c, req.(header := h), st, s);
    MissingOutcome(c, req, s, st);
    MissingOutcome(c, req.(header := h), s, st);
  }

  /**
   * A listing of an existing bucket answers 200 with the query's options, the
   * page size read from a "max_keys" parameter whatever "max-keys" says.
   */
  lemma ListingOptions(c: Config, req: HttpRequest, st: StoreAnswers, s: S3Request)
    requires Classify(c, req) == Success(s) && s.requestType == Some(LsBucket)
    requires st.bucketExists
    ensures var out := GetReply(c, req, st);
      var q := s.query.GetOr(map[]);
      out.fault.None? && out.calls == [GetBucket(s.bucket)] &&
      out.reply.status == Code(200) && out.reply.header == XmlType &&
      out.reply.body.Xml? && out.reply.body.doc.BucketQuery? &&
      out.reply.body.doc.bucket == s.bucket &&
      out.reply.body.doc.options.maxKeys == QueryValue(q, "max_keys") &&
      out.reply.body.doc.options.marker == QueryValue(q, "marker") &&
      out.reply.body.doc.options.prefix == QueryValue(q, "prefix") &&
      out.reply.body.doc.options.delimiter == QueryValue(q, "delimiter")
  {
  }

  /** A listing of a bucket the store does not have answers 404 NoSuchBucket. */
  lemma ListingMissingBucket(c: Config, req: HttpRequest, st: StoreAnswers, s: S3Request)
    requires Classify(c, req) == Success(s) && s.requestType == Some(LsBucket)
    requires !st.bucketExists
    ensures GetReply(c, req, st) ==
      Outcome(Reply(Code(404), XmlType, Xml(NoSuchBucket(s.bucket))), [GetBucket(s.bucket)], None)
  {
  }

  /** A request classified as an object GET is answered by the object branch. */
  lemma GetRouting(c: Config, req: HttpRequest, st: StoreAnswers, s: S3Request)
    requires Classify(c, req) == Success(s) && s.requestType == Some(Get)
    ensures GetReply(c, req, st) == GetObjectOutcome(c, req, s, st)
  {
    assert s.requestType != Some(ListBuckets) && s.requestType != Some(LsBucket) && s.requestType != Some(GetAcl);
  }

  lemma MissingOutcome(c: Config, req: HttpRequest, s: S3Request, st: StoreAnswers)
    requires Fetched(c, st).None?
    ensures GetObjectOutcome(c, req, s, st) == Outcome(NoSuchKeyReply(map[], s.obj), FetchCalls(c, s, st), None)
  {
  }

  /** The store is asked to replicate exactly when the first lookup misses and replication is on. */
  lemma ReplicationRetry(c: Config, req: HttpRequest, st: StoreAnswers, s: S3Request)
    requires Classify(c, req) == Success(s) && s.requestType == Some(Get)
    ensures var calls := GetReply(c, req, st).calls;
      |calls| == (if st.fetched.None? && c.replicate then 3 else 1) &&
      calls[0] == GetObject(s.bucket, s.obj) &&
      (ReplicateObject(s.bucket, s.obj) in calls <==> st.fetched.None? && c.replicate)
  {
    GetRouting(c, req, st, s);
    GetObjectCalls(c, req, s, st);
  }

  lemma GetObjectCalls(c: Config, req: HttpRequest, s: S3Request, st: StoreAnswers)
    ensures GetObjectOutcome(c, req, s, st).calls == FetchCalls(c, s, st)
  {
    match Fetched(c, st)
    case None =>
    case Some(o) =>
      if !NoneMatchHit(req, o) {
        var served := ServeObject(c, req, s, o);
        assert Outcome(served.0, FetchCalls(c, s, st), served.1).calls == FetchCalls(c, s, st);
      }
  }

  /** An If-None-Match naming the ETag, or "*", answers 304 whatever If-Modified-Since holds. */
  lemma NoneMatchWins(c: Config, req: HttpRequest, st: StoreAnswers, s: S3Request, o: StoredObject)
    requires Classify(c, req) == Success(s) && s.requestType == Some(Get)
    requires Fetched(c, st) == Some(o)
    requires NoneMatchHit(req, o)
    ensures GetReply(c, req, st).reply == Reply(Code(304), map[], Text(""))
    ensures GetReply(c, req, st).fault.None?
  {
    GetRouting(c, req, st, s);
    NoneMatchOutcome(c, req, s, st, o);
  }

  lemma NoneMatchOutcome(c: Config, req: HttpRequest, s: S3Request, st: StoreAnswers, o: StoredObject)
    requires Fetched(c, st) == Some(o) && NoneMatchHit(req, o)
    ensures GetObjectOutcome(c, req, s, st) == Outcome(Reply(Code(304), map[], Text("")), FetchCalls(c, s, st), None)
  {
  }

  /**
   * If-Modified-Since: a date at or after the modification time answers 304,
   * an earlier one serves the object, and one Time.httpdate cannot read raises.
   */
  lemma ModifiedSince(c: Config, req: HttpRequest, st: StoreAnswers, s: S3Request, o: StoredObject, text: string)
    requires Classify(c, req) == Success(s) && s.requestType == Some(Get)
    requires Fetched(c, st) == Some(o) && !NoneMatchHit(req, o)
    requires HeaderText(req.header, "if-modified-since") == Some(text)
    ensures c.httpDate(text).None? ==> GetReply(c, req, st).fault == Some(InvalidHttpDate)
    ensures c.httpDate(text).Some? && c.httpDate(text).value >= o.modified ==>
      GetReply(c, req, st).reply == Reply(Code(304), map[], Text("")) && GetReply(c, req, st).fault.None?
    ensures c.httpDate(text).Some? && c.httpDate(text).value < o.modified ==>
      GetReply(c, req, st).reply == ServeObject(c, req, s, o).0 &&
      GetReply(c, req, st).fault == ServeObject(c, req, s, o).1
  {
    GetRouting(c, req, st, s);
    ModifiedOutcome(c, req, s, st, o, text);
  }

  lemma ModifiedOutcome(c: Config, req: HttpRequest, s: S3Request, st: StoreAnswers, o: StoredObject, text: string)
    requires Fetched(c, st) == Some(o) && !NoneMatchHit(req, o)
    requires HeaderText(req.header, "if-modified-since") == Some(text)
    ensures GetObjectOutcome(c, req, s, st) ==
      match c.httpDate(text)
      case None => Outcome(Fresh, FetchCalls(c, s, st), Some(InvalidHttpDate))
      case Some(t) =>
        if t >= o.modified then Outcome(Reply(Code(304), map[], Text("")), FetchCalls(c, s, st), None)
        else Outcome(ServeObject(c, req, s, o).0, FetchCalls(c, s, st), ServeObject(c, req, s, o).1)
  {
  }

  /** Without conditional headers a found object is served. */
  lemma UnconditionalServes(c: Config, req: HttpRequest, st: StoreAnswers, s: S3Request, o: StoredObject)
    requires Classify(c, req) == Success(s) && s.requestType == Some(Get)
    requires Fetched(c, st) == Some(o)
    requires HeaderValues(req.header, "if-none-match") == [] && HeaderValues(req.header, "if-modified-since") == []
    ensures GetReply(c, req, st) == Outcome(ServeObject(c, req, s, o).0, FetchCalls(c, s, st), ServeObject(c, req, s, o).1)
  {
    GetRouting(c, req, st, s);
    UnconditionalOutcome(c, req, s, st, o);
  }

  lemma UnconditionalOutcome(c: Config, req: HttpRequest, s: S3Request, st: StoreAnswers, o: StoredObject)
    requires Fetched(c, st) == Some(o)
    requires HeaderValues(req.header, "if-none-match") == [] && HeaderValues(req.header, "if-modified-since") == []
    ensures GetObjectOutcome(c, req, s, st) == Outcome(ServeObject(c, req, s, o).0, FetchCalls(c, s, st), ServeObject(c, req, s, o).1)
  {
  }

  lemma MetadataNamesAreMeta(md: seq<(string, string)>)
    ensures forall k :: k in MetadataNames(md) ==> |k| > 0 && k[0] == 'x'
  {
    forall k | k in MetadataNames(md)
      ensures |k| > 0 && k[0] == 'x'
    {
      var i :| 0 <= i < |md| && k == MetaPrefix + md[i].0;
      assert k[0] == MetaPrefix[0];
    }
  }

  /** The fixed headers of a served object, before its metadata. */
  function FixedHeaders(c: Config, o: StoredObject): (h: map<string, string>)
    ensures forall k :: k in h ==> k != [] && k[0] != 'x'
  {
    assert "content-type"[0] == 'c' && "last-modified"[0] == 'l' && "ETag"[0] == 'E';
    assert "accept-ranges"[0] == 'a' && "last-ranges"[0] == 'l' && "access-control-allow-origin"[0] == 'a';
    map[]["content-type" := o.contentType]
         ["last-modified" := c.formatHttpDate(o.modified)]
         ["ETag" := Quoted(o.md5)]
         ["accept-ranges" := "bytes"]
         ["last-ranges" := "bytes"]
         ["access-control-allow-origin" := "*"]
  }

  /** A served object carries its type, date, ETag, range headers and CORS origin (server.rb:133-140). */
  lemma ServedFixedHeaders(c: Config, o: StoredObject)
    ensures var h := ObjectHeaders(c, o);
      "content-type" in h && h["content-type"] == o.contentType &&
      "last-modified" in h && h["last-modified"] == c.formatHttpDate(o.modified) &&
      "ETag" in h && h["ETag"] == Quoted(o.md5) &&
      "accept-ranges" in h && h["accept-ranges"] == "bytes" &&
      "last-ranges" in h && h["last-ranges"] == "bytes" &&
      "access-control-allow-origin" in h && h["access-control-allow-origin"] == "*"
  {
    var md := o.customMetadata;
    var base := FixedHeaders(c, o);
    MetadataNamesAreMeta(md);
    assert forall k :: k in base ==> k !in MetadataNames(md);
    MetadataHeadersKeys(base, md);
  }

  /** A served object carries every entry of its custom metadata (server.rb:140-142). */
  lemma ServedMetadata(c: Config, o: StoredObject)
    requires DistinctNames(o.customMetadata)
    ensures var h := ObjectHeaders(c, o);
      forall i :: 0 <= i < |o.customMetadata| ==>
        MetaPrefix + o.customMetadata[i].0 in h && h[MetaPrefix + o.customMetadata[i].0] == o.customMetadata[i].1
  {
    MetadataHeadersValues(FixedHeaders(c, o), o.customMetadata);
  }

  /** Any Range header makes the answer partial, whether or not it parses. */
  lemma RangeIsPartial(c: Config, req: HttpRequest, s: S3Request, o: StoredObject)
    requires HeaderFirst(req.header, "range").Some?
    ensures ServeObject(c, req, s, o).0.status == Code(206)
  {
  }

  /** "bytes=a-b" inside the object: exactly bytes a..b, announced in Content-Range. */
  lemma ClosedRangeReply(c: Config, req: HttpRequest, s: S3Request, o: StoredObject, a: nat, b: nat)
    requires HeaderFirst(req.header, "range") == Some(BytesUnit + DecimalString(a) + "-" + DecimalString(b))
    requires a <= b < |o.content| && 0 < b
    ensures var r := ServeObject(c, req, s, o);
      r.1.None? && r.0.status == Code(206) && r.0.body == Bytes(o.content[a..b + 1]) &&
      r.0.header == ObjectHeaders(c, o)["content-range" :=
        "bytes " + DecimalString(a) + "-" + DecimalString(b) + "/" + DecimalString(|o.content|)]
  {
    ClosedRangeServed(o.content, a, b);
  }

  /**
   * "Range: bytes=a-0" inside the object sends everything from a, announced
   * as "bytes a-(size-1)/size": for a = 0 the whole object.
   */
  lemma ZeroEndReply(c: Config, req: HttpRequest, s: S3Request, o: StoredObject, a: nat)
    requires HeaderFirst(req.header, "range") == Some(BytesUnit + DecimalString(a) + "-0")
    requires a < |o.content|
    ensures var r := ServeObject(c, req, s, o);
      r.1.None? && r.0.status == Code(206) && r.0.body == Bytes(o.content[a..]) &&
      r.0.header == ObjectHeaders(c, o)["content-range" :=
        "bytes " + DecimalString(a) + "-" + DecimalString(|o.content| - 1) + "/" + DecimalString(|o.content|)]
  {
    ZeroEndReadsToEnd(o.content, a);
  }


  /** A Range header that does not parse still answers 206, with the whole object and its length. */
  lemma UnparsedRangeServesWhole(c: Config, req: HttpRequest, s: S3Request, o: StoredObject)
    requires HeaderFirst(req.header, "range").Some? && ParseRange(HeaderFirst(req.header, "range").value).None?
    ensures var r := ServeObject(c, req, s, o);
      r.1.None? && r.0.status == Code(206) &&
      r.0.header == ObjectHeaders(c, o)["content-length" := IntString(|o.content|)] &&
      r.0.body == (if s.httpVerb == "HEAD" then Text("") else File(o.content))
  {
  }

  /** HEAD gets GET's status and headers and an empty body, unless a Range header parses. */
  lemma HeadLikeGet(c: Config, req: HttpRequest, s: S3Request, o: StoredObject)
    requires s.httpVerb == "HEAD"
    requires HeaderFirst(req.header, "range").None? || ParseRange(HeaderFirst(req.header, "range").value).None?
    ensures var head := ServeObject(c, req, s, o).0;
      var get := ServeObject(c, req, s.(httpVerb := "GET"), o).0;
      head.status == get.status && head.header == get.header &&
      head.body == Text("") && get.body == File(o.content)
  {
  }

  /** A PUT carrying an uploadId stores a part under its part name, which reads back as its parts. */
  lemma PartPutStoresUnderPartName(c: Config, req: HttpRequest, st: StoreAnswers, id: string, s: S3Request)
    requires Classify(c, req) == Success(s) && s.requestType != Some(Copy)
    requires ParamFirst(req.params, "uploadId") == Some(id)
    ensures var o := PutReply(c, req, st);
      var name := PartName(id, s.obj, ParamFirst(req.params, "partNumber"));
      o.fault.None? && o.reply.status == Code(200) && o.reply.body == Text("") &&
      o.reply.header["ETag"] == Quoted(st.stored.md5) &&
      o.reply.header["access-control-expose-headers"] == "ETag" &&
      o.calls[|o.calls| - 1] == StoreObject(s.bucket, Some(name)) &&
      ('_' !in id && ParamFirst(req.params, "partNumber").Some? && ParamFirst(req.params, "partNumber").value != "" &&
       AllDigits(ParamFirst(req.params, "partNumber").value) && s.obj.Some? ==>
        ParsePartName(name) == Some((id, s.obj.value, ParamFirst(req.params, "partNumber").value)))
  {
    var n := ParamFirst(req.params, "partNumber");
    assert PutReply(c, req, st) == MultipartPutOutcome(req, s, st);
    assert "ETag" !in CorsNames;
    if '_' !in id && n.Some? && n.value != "" && AllDigits(n.value) && s.obj.Some? {
      PartNameRoundTrip(id, s.obj.value, n.value);
    }
  }

  /** A plain PUT stores the body under its key, creating a missing bucket first, and returns the ETag. */
  lemma PutStores(c: Config, req: HttpRequest, st: StoreAnswers, s: S3Request)
    requires Classify(c, req) == Success(s) && s.requestType == Some(Store)
    requires ParamFirst(req.params, "uploadId").None?
    ensures var o := PutReply(c, req, st);
      o.fault.None? && o.reply.status == Code(200) && o.reply.body == Text("") &&
      o.reply.header == map["content-type" := "text/xml", "access-control-allow-origin" := "*", "ETag" := Quoted(st.stored.md5)] &&
      o.calls[0] == GetBucket(s.bucket) && o.calls[|o.calls| - 1] == StoreObject(s.bucket, s.obj) &&
      (NewBucket(s.bucket) in o.calls <==> !st.bucketExists)
  {
  }

  /** A part upload is recognised by its uploadId alone, whatever the operation (server.rb:182). */
  lemma PutRouting(c: Config, req: HttpRequest, st: StoreAnswers, s: S3Request)
    requires Classify(c, req) == Success(s)
    ensures ParamFirst(req.params, "uploadId").Some? ==> PutReply(c, req, st) == MultipartPutOutcome(req, s, st)
    ensures ParamFirst(req.params, "uploadId").None? ==> PutReply(c, req, st) == PlainPutOutcome(s, st)
  {
  }

  lemma MultipartPutClassified(c: Config, req: HttpRequest, st: StoreAnswers, s: S3Request)
    requires Classify(c, req) == Success(s)
    ensures MultipartPutReply(c, req, st) == MultipartPutOutcome(req, s, st)
  {
  }

  lemma PostClassified(c: Config, req: HttpRequest, st: StoreAnswers, id: string, s: S3Request)
    requires Classify(c, req) == Success(s)
    ensures PostReply(c, req, st, id) == ClosePost(PostBranch(c, req, s, st, id))
  {
  }

  /** A copy from a missing source is a 404 in XML that still carries the CORS origin. */
  lemma CopyFromMissingSource(s: S3Request, st: StoreAnswers)
    requires s.requestType == Some(Copy) && st.copied.None?
    ensures var o := PlainPutOutcome(s, st);
      o.reply.status == Code(404) && o.reply.body == Xml(NoSuchKey(s.obj)) &&
      o.reply.header == map["content-type" := "application/xml", "access-control-allow-origin" := "*"] &&
      o.calls == [CopyObject(s.srcBucket, s.srcObject, s.bucket, s.obj)] && o.fault.None?
  {
    assert PutBase.header["content-type" := "application/xml"] ==
      map["content-type" := "application/xml", "access-control-allow-origin" := "*"];
  }

  /** Every POST that does not raise ends with the XML content type and the CORS headers. */
  lemma PostEndsWithCors(o: Outcome)
    requires o.fault.None?
    ensures var h := ClosePost(o).reply.header;
      "content-type" in h && h["content-type"] == "text/xml" && h.Keys >= CorsNames &&
      h["access-control-allow-origin"] == "*" && h["access-control-expose-headers"] == "ETag" &&
      (forall k :: k in o.reply.header && k !in CorsNames && k != "content-type" ==> k in h && h[k] == o.reply.header[k])
    ensures ClosePost(o).reply.status == o.reply.status && ClosePost(o).reply.body == o.reply.body
    ensures ClosePost(o).calls == o.calls
  {
  }

  /** do_POST picks its branch by the query's uploads and uploadId names, then the content type. */
  lemma PostRouting(c: Config, req: HttpRequest, st: StoreAnswers, id: string, s: S3Request)
    requires Classify(c, req) == Success(s)
    ensures "uploads" in req.params ==>
      PostReply(c, req, st, id).reply.body == Xml(InitiateUpload(s.bucket, QueryValue(req.query, "key"), id)) &&
      PostReply(c, req, st, id).calls == [] && PostReply(c, req, st, id).reply.status == Code(200)
    ensures "uploads" !in req.params && "uploadId" !in req.params && IsFormUpload(HeaderText(req.header, "content-type")) ==>
      PostReply(c, req, st, id) == ClosePost(FormOutcome(c, req, s, st))
    ensures "uploads" !in req.params && "uploadId" !in req.params && !IsFormUpload(HeaderText(req.header, "content-type")) ==>
      PostReply(c, req, st, id) == Raised(BadRequest)
  {
    assert PostReply(c, req, st, id) == ClosePost(PostBranch(c, req, s, st, id));
  }

  /** Completing an upload hands the store the parts the manifest lists, in order. */
  lemma CompleteUploadParts(c: Config, req: HttpRequest, st: StoreAnswers, id: string, parts: seq<(nat, string)>, s: S3Request)
    requires Classify(c, req) == Success(s)
    requires "uploads" !in req.params && "uploadId" in req.params
    requires forall k :: 0 <= k < |parts| ==> PlainEtag(parts[k].1)
    requires BodyText(req) == RenderManifest(parts)
    ensures var o := PostReply(c, req, st, id);
      o.fault.None? && o.reply.body == Xml(CompleteResult(st.combined)) && |o.calls| == 2 &&
      o.calls[0] == GetBucket(s.bucket) && o.calls[1].CombineParts? &&
      (o.calls[1].bucket == if st.bucketExists then s.bucket else None) && o.calls[1].key == s.obj &&
      o.calls[1].uploadId == ParamFirst(req.params, "uploadId") &&
      |o.calls[1].parts| == |parts| &&
      forall k :: 0 <= k < |parts| ==> o.calls[1].parts[k] == PartEntry(parts[k].0, Some(parts[k].1))
  {
    ManifestRoundTrip(parts);
  }

  /** A form without a key field raises when the key is rewritten, before the store is touched. */
  lemma FormNeedsKey(c: Config, req: HttpRequest, st: StoreAnswers, s: S3Request)
    requires QueryValue(req.query, "key").None?
    ensures ClosePost(FormOutcome(c, req, s, st)) == Raised(NoMethodOnNil)
  {
  }

  /** The key a form upload is stored under: the key field with ${filename} replaced. */
  function FormKey(req: HttpRequest, template: string): string {
    Gsub(template, "${filename}", FormFilename(BodyText(req)))
  }

  /** A form with a redirect answers 307 to it, after storing the file under the rewritten key. */
  lemma FormRedirects(c: Config, req: HttpRequest, st: StoreAnswers, s: S3Request, template: string, url: string)
    requires QueryValue(req.query, "key") == Some(template)
    requires QueryValue(req.query, "success_action_redirect") == Some(url)
    ensures var o := ClosePost(FormOutcome(c, req, s, st));
      o.fault.None? && o.reply.status == Code(307) && o.reply.body == Text("") &&
      o.reply.header["location"] == url && o.reply.header["etag"] == Quoted(st.stored.md5) &&
      o.calls[|o.calls| - 1] == StoreObject(s.bucket, Some(FormKey(req, template)))
  {
    var h := map["etag" := Quoted(st.stored.md5), "location" := url];
    var calls := StoreCalls(s.bucket, Some(FormKey(req, template)), st.bucketExists);
    FormRedirectOutcome(c, req, st, s, template, url);
    assert "location" !in CorsNames && "etag" !in CorsNames;
    assert ClosePost(Outcome(Reply(Code(307), h, Text("")), calls, None)).reply.header == PostHeaders(h);
  }

  lemma FormRedirectOutcome(c: Config, req: HttpRequest, st: StoreAnswers, s: S3Request, template: string, url: string)
    requires QueryValue(req.query, "key") == Some(template)
    requires QueryValue(req.query, "success_action_redirect") == Some(url)
    ensures FormOutcome(c, req, s, st) ==
      Outcome(Reply(Code(307), map["etag" := Quoted(st.stored.md5), "location" := url], Text("")),
        StoreCalls(s.bucket, Some(FormKey(req, template)), st.bucketExists), None)
  {
  }

  /**
   * Without a redirect the status is the form's success_action_status, else
   * 204, and only the status "201" gets a PostResponse document.
   */
  lemma FormStatus(c: Config, req: HttpRequest, st: StoreAnswers, s: S3Request, template: string)
    requires QueryValue(req.query, "key") == Some(template)
    requires QueryValue(req.query, "success_action_redirect").None?
    ensures var o := ClosePost(FormOutcome(c, req, s, st));
      var given := QueryValue(req.query, "success_action_status");
      o.fault.None? &&
      (given.Some? ==> o.reply.status == Given(given.value)) &&
      (given.None? ==> o.reply.status == Code(204)) &&
      (o.reply.body.Xml? <==> given == Some("201")) &&
      (given != Some("201") ==> o.reply.body == Text(""))
    ensures var key := FormKey(req, template);
      QueryValue(req.query, "success_action_status") == Some("201") ==>
        ClosePost(FormOutcome(c, req, s, st)).reply.body ==
          Xml(PostResponse(FormLocation(c, s.bucket, key), s.bucket, key, Quoted(st.stored.md5)))
  {
  }

  lemma {:induction false} FilenameAbsent(body: string, i: nat)
    requires i <= |body| && !Contains(body[i..], FilenameOpen)
    ensures FilenameFrom(body, i).None?
    decreases |body| - i
  {
    if i < |body| {
      assert body[i..][1..] == body[i + 1..];
      FilenameAbsent(body, i + 1);
    }
  }

  /** A body that names no file gives the name 'default'. */
  lemma FormFilenameDefault(body: string)
    requires !Contains(body, FilenameOpen)
    ensures FormFilename(body) == "default"
  {
    assert body[0..] == body;
    FilenameAbsent(body, 0);
  }

  /** A body opening with `filename="name"` gives that name. */
  lemma FormFilenameNamed(name: string, rest: string)
    requires '"' !in name && '\n' !in name
    requires rest == "" || rest[0] == '\n'
    ensures FormFilename(FilenameOpen + name + "\"" + rest) == name
  {
    var body := FilenameOpen + name + "\"" + rest;
    var t := body[|FilenameOpen|..];
    assert body[0..][..|FilenameOpen|] == FilenameOpen;
    assert t == name + ("\"" + rest);
    LineLengthOf(name + "\"", rest);
    assert t == (name + "\"") + rest;
    assert t[|name|..][..1] == "\"";
    var r := GreedyCapture(t, "\"", 0);
    assert r.Some?;
    assert |r.value| <= |name| + 1;
    assert t[|r.value|] == '"';
    assert r.value == name;
  }

  /** With a literal ${filename} at the end of the key, the key names the uploaded file. */
  lemma FormKeyNamesFile(req: HttpRequest, prefix: string)
    requires '$' !in prefix
    ensures FormKey(req, prefix + "${filename}") == prefix + FormFilename(BodyText(req))
  {
    GsubSplice(prefix, "${filename}", FormFilename(BodyText(req)), "");
    assert prefix + "${filename}" + "" == prefix + "${filename}";
    assert Gsub("", "${filename}", FormFilename(BodyText(req))) == "";
  }

  /** A DELETE that classifies always answers 204 with an empty body. */
  lemma DeleteAnswers204(c: Config, req: HttpRequest, st: StoreAnswers, s: S3Request)
    requires Classify(c, req) == Success(s)
    ensures var o := DeleteReply(c, req, st);
      o.reply == Reply(Code(204), map[], Text("")) && o.fault.None? &&
      (s.requestType == Some(DeleteObject) ==>
        o.calls == [GetBucket(s.bucket), RemoveObject(if st.bucketExists then s.bucket else None, s.obj)]) &&
      (s.requestType == Some(DeleteBucket) ==> o.calls == [RemoveBucket(s.bucket)])
  {
  }

  /** Every handler raises, untouched, exactly what classification raises. */
  lemma ClassificationFaultsFirst(c: Config, req: HttpRequest, st: StoreAnswers, id: string)
    requires Classify(c, req).Failure?
    ensures var e := Classify(c, req).error;
      GetReply(c, req, st) == Raised(e) && PutReply(c, req, st) == Raised(e) &&
      PostReply(c, req, st, id) == Raised(e) && DeleteReply(c, req, st) == Raised(e)
  {
  }
}
