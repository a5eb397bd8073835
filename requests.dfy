/**
 * FakeS3::Request and the classifiers that fill it in: normalize_request and
 * its per-verb helpers (server.rb:16-34, 356-510). Each helper takes the
 * request record as it stands and returns it with the fields Ruby assigns.
 */
module Requests {
  import opened Wrappers
  import opened RubyText
  import opened Http
  import opened Addressing

  /** The operation constants of FakeS3::Request (HEAD and MOVE are declared but never assigned). */
  datatype RequestType =
    | CreateBucket | ListBuckets | LsBucket | Head | Store | Copy
    | Get | GetAcl | SetAcl | Move | DeleteObject | DeleteBucket

  /** The exceptions that escape the servlet; WEBrick answers each with an error status. */
  datatype Fault =
    | UnknownRequest        // raise "Unknown Request"
    | UnsupportedOperation  // raise UnsupportedOperation
    | NoMethodOnNil         // NoMethodError: split, join or gsub sent to nil
    | InvalidHttpDate       // ArgumentError from Time.httpdate
    | NegativeRead          // ArgumentError from IO#read with a negative length
    | BadRequest            // raise WEBrick::HTTPStatus::BadRequest

  /** The attributes of FakeS3::Request; nil is None. */
  datatype S3Request = S3Request(
    requestType: Option<RequestType>,
    bucket: Option<string>,
    obj: Option<string>,
    srcBucket: Option<string>,
    srcObject: Option<string>,
    path: Option<string>,
    isPathStyle: bool,
    query: Option<Query>,
    httpVerb: string)

  /** Addressing style and verb: set once by normalize_request, never reassigned. */
  predicate SameOrigin(a: S3Request, b: S3Request) {
    a.isPathStyle == b.isPathStyle && a.httpVerb == b.httpVerb
  }

  /** Everything but the operation and the copy source. */
  predicate SameTarget(a: S3Request, b: S3Request) {
    SameOrigin(a, b) && a.bucket == b.bucket && a.obj == b.obj &&
    a.path == b.path && a.query == b.query
  }

  /** `path[1, path.size]` and `path[1..-1]`: nil for the empty string. */
  function DropFirst(s: string): Option<string> {
    if s == [] then None else Some(s[1..])
  }

  /** `elems[0]`. */
  function FirstOf(elems: seq<string>): Option<string> {
    if elems == [] then None else Some(elems[0])
  }

  /** `elems[1, elems.size].join('/')`: nil (so join raises) for an empty array. */
  function JoinedRest(elems: seq<string>): Option<string> {
    if elems == [] then None else Some(Join(elems[1..], "/"))
  }

  /** The path segments a classifier works on: without the leading character in path style. */
  function PathElems(path: string, pathStyle: bool): Option<seq<string>> {
    if pathStyle then
      match DropFirst(path)
      case None => None
      case Some(rest) => Some(Split(rest, '/'))
    else Some(Split(path, '/'))
  }

  /** `request_line =~ /\?acl/`. */
  function AclOrStore(requestLine: string): RequestType {
    if Contains(requestLine, "?acl") then SetAcl else Store
  }

  /** The part of normalize_request before the verb dispatch: host resolution. */
  function Resolve(roots: seq<string>, isIpLiteral: string -> bool, req: HttpRequest): (r: Result<S3Request, Fault>)
    ensures r.Failure? <==> HeaderText(req.header, "host").None?
    ensures r.Failure? ==> r.error == NoMethodOnNil
    ensures r.Success? ==> (r.value.isPathStyle <==> r.value.bucket.None?)
    ensures r.Success? ==> (r.value.requestType.None? && r.value.obj.None? &&
      r.value.srcBucket.None? && r.value.srcObject.None? && r.value.query.None?)
    ensures r.Success? ==> r.value.path == Some(req.path) && r.value.httpVerb == req.verb
    ensures r.Success? ==>
      r.value.bucket == ResolveHost(HostName(HeaderText(req.header, "host").value), roots, isIpLiteral)
  {
    match HeaderText(req.header, "host")
    case None => Failure(NoMethodOnNil)
    case Some(hostHeader) =>
      var bucket := ResolveHost(HostName(hostHeader), roots, isIpLiteral);
      Success(S3Request(None, bucket, None, None, None, Some(req.path), bucket.None?, None, req.verb))
  }

  /** normalize_get, for GET and HEAD. */
  function NormalizeGet(req: HttpRequest, s: S3Request): (r: Result<S3Request, Fault>)
    ensures r.Failure? <==> s.isPathStyle && req.path == ""
    ensures r.Failure? ==> r.error == NoMethodOnNil
    ensures r.Success? ==> (SameOrigin(r.value, s) && r.value.path == s.path &&
      r.value.srcBucket == s.srcBucket && r.value.srcObject == s.srcObject)
    ensures r.Success? ==> r.value.requestType in {Some(ListBuckets), Some(LsBucket), Some(Get), Some(GetAcl)}
    ensures r.Success? && !s.isPathStyle ==> r.value.bucket == s.bucket
    ensures r.Success? && r.value.requestType == Some(GetAcl) ==> QueryValue(req.query, "acl") == Some("")
    ensures r.Success? && r.value.requestType == Some(Get) ==> QueryValue(req.query, "acl") != Some("")
    ensures r.Success? && r.value.requestType in {Some(Get), Some(GetAcl)} ==> r.value.obj.Some?
    ensures r.Success? && r.value.requestType == Some(LsBucket) ==>
      r.value.query == Some(req.query) && r.value.obj == s.obj
    ensures s.isPathStyle && req.path == "/" ==> r == Success(s.(requestType := Some(ListBuckets)))
    ensures r.Success? && !(s.isPathStyle && req.path == "/") ==>
      PathElems(req.path, s.isPathStyle).Some? &&
      var elems := PathElems(req.path, s.isPathStyle).value;
      (r.value.requestType == Some(LsBucket) <==> |elems| < 2) &&
      (s.isPathStyle ==> r.value.bucket == FirstOf(elems)) &&
      (|elems| >= 2 ==> r.value.obj == Some(Join(elems[1..], "/")))
  {
    if req.path == "/" && s.isPathStyle then Success(s.(requestType := Some(ListBuckets)))
    else
      match PathElems(req.path, s.isPathStyle)
      case None => Failure(NoMethodOnNil)
      case Some(elems) =>
        var s1 := if s.isPathStyle then s.(bucket := FirstOf(elems)) else s;
        if |elems| < 2 then Success(s1.(requestType := Some(LsBucket), query := Some(req.query)))
        else
          var kind := if QueryValue(req.query, "acl") == Some("") then GetAcl else Get;
          Success(s1.(requestType := Some(kind), obj := Some(Join(elems[1..], "/"))))
  }

  /** normalize_put's path rules, before the copy-source override. */
  function ClassifyPutPath(req: HttpRequest, s: S3Request): (r: Result<S3Request, Fault>)
    ensures r.Success? ==> (SameOrigin(r.value, s) && r.value.query == s.query && r.value.path == s.path &&
      r.value.srcBucket == s.srcBucket && r.value.srcObject == s.srcObject)
    ensures r.Success? ==> r.value.requestType in {s.requestType, Some(CreateBucket), Some(SetAcl), Some(Store)}
    ensures req.path == "/" && s.bucket.Some? ==> r == Success(s.(requestType := Some(CreateBucket)))
    ensures req.path == "/" && s.bucket.None? ==> r == Success(s)
    ensures r.Success? && !s.isPathStyle ==> r.value.bucket == s.bucket
    ensures r.Success? && r.value.requestType in {Some(SetAcl), Some(Store)} && req.path != "/" ==>
      r.value.requestType == Some(AclOrStore(req.requestLine))
    ensures r.Success? && r.value.requestType in {Some(SetAcl), Some(Store)} && req.path !in {"", "/"} ==>
      r.value.obj.Some?
    ensures !s.isPathStyle && req.path != "/" ==>
      r.Success? && r.value.requestType == Some(AclOrStore(req.requestLine)) && r.value.obj == DropFirst(req.path)
    ensures s.isPathStyle && req.path != "/" ==>
      (r.Failure? <==> PathElems(req.path, true).None? || PathElems(req.path, true).value == [])
    ensures r.Failure? ==> r.error == NoMethodOnNil
    ensures r.Success? && s.isPathStyle && req.path != "/" ==>
      PathElems(req.path, true).Some? &&
      var elems := PathElems(req.path, true).value;
      r.value.bucket == FirstOf(elems) &&
      (r.value.requestType == Some(CreateBucket) <==> |elems| == 1) &&
      (|elems| >= 2 ==> r.value.obj == Some(Join(elems[1..], "/")))
  {
    if req.path == "/" then
      if s.bucket.Some? then Success(s.(requestType := Some(CreateBucket))) else Success(s)
    else if s.isPathStyle then
      match PathElems(req.path, true)
      case None => Failure(NoMethodOnNil)
      case Some(elems) =>
        var s1 := s.(bucket := FirstOf(elems));
        if |elems| == 1 then Success(s1.(requestType := Some(CreateBucket)))
        else
          match JoinedRest(elems)
          case None => Failure(NoMethodOnNil)
          case Some(key) => Success(s1.(requestType := Some(AclOrStore(req.requestLine)), obj := Some(key)))
    else
      Success(s.(requestType := Some(AclOrStore(req.requestLine)), obj := DropFirst(req.path)))
  }

  /**
   * The bucket and the CGI-unescaped key an `x-amz-copy-source` value names:
   * a leading "/" is skipped; a value made only of slashes leaves nothing to
   * join, and join raises.
   */
  function ParseCopySource(v: string): (r: Result<(string, string), Fault>)
    ensures r.Failure? <==> TrimEnd(v, '/') == ""
    ensures r.Failure? ==> r.error == NoMethodOnNil
    ensures r.Success? ==> '/' !in r.value.0
  {
    var src := Split(v, '/');
    SplitEmptyIff(v, '/');
    if src == [] then Failure(NoMethodOnNil)
    else
      var offset := if src[0] == "" then 1 else 0;
      assert offset == 1 ==> |src| >= 2;
      Success((src[offset], Unescape(Join(src[1 + offset..], "/"))))
  }

  /** The copy-source override at the end of normalize_put: one value makes the request a COPY. */
  function ApplyCopySource(req: HttpRequest, s: S3Request): (r: Result<S3Request, Fault>)
    ensures |HeaderValues(req.header, "x-amz-copy-source")| != 1 ==> r == Success(s)
    ensures |HeaderValues(req.header, "x-amz-copy-source")| == 1 ==>
      (r.Failure? <==> ParseCopySource(HeaderValues(req.header, "x-amz-copy-source")[0]).Failure?)
    ensures r.Success? ==> SameTarget(r.value, s)
    ensures r.Success? && |HeaderValues(req.header, "x-amz-copy-source")| == 1 ==>
      r.value.requestType == Some(Copy) && r.value.srcBucket.Some? && r.value.srcObject.Some? &&
      ParseCopySource(HeaderValues(req.header, "x-amz-copy-source")[0]) ==
        Success((r.value.srcBucket.value, r.value.srcObject.value))
  {
    var copySource := HeaderValues(req.header, "x-amz-copy-source");
    if |copySource| == 1 then
      match ParseCopySource(copySource[0])
      case Failure(e) => Failure(e)
      case Success((srcBucket, srcObject)) =>
        Success(s.(srcBucket := Some(srcBucket), srcObject := Some(srcObject), requestType := Some(Copy)))
    else Success(s)
  }

  /** normalize_put: path rules, then the copy-source override, which always wins. */
  function NormalizePut(req: HttpRequest, s: S3Request): (r: Result<S3Request, Fault>)
    ensures ClassifyPutPath(req, s).Failure? ==> r == ClassifyPutPath(req, s)
    ensures ClassifyPutPath(req, s).Success? ==> r == ApplyCopySource(req, ClassifyPutPath(req, s).value)
  {
    match ClassifyPutPath(req, s)
    case Failure(e) => Failure(e)
    case Success(t) => ApplyCopySource(req, t)
  }

  /** normalize_delete. */
  function NormalizeDelete(req: HttpRequest, s: S3Request): (r: Result<S3Request, Fault>)
    ensures req.path == "/" && s.isPathStyle ==> r == Success(s)
    ensures r.Failure? ==> r.error in {NoMethodOnNil, UnsupportedOperation}
    ensures r.Success? ==> (SameOrigin(r.value, s) && r.value.path == s.path &&
      r.value.srcBucket == s.srcBucket && r.value.srcObject == s.srcObject)
    ensures r.Success? ==> r.value.requestType in {s.requestType, Some(DeleteBucket), Some(DeleteObject)}
    ensures r.Success? && !s.isPathStyle ==> r.value.bucket == s.bucket
    ensures r.Success? && r.value.requestType == Some(DeleteBucket) && s.requestType != Some(DeleteBucket) ==>
      r.value.query == Some(req.query)
    ensures r.Success? && r.value.requestType == Some(DeleteObject) && s.requestType != Some(DeleteObject) ==>
      r.value.obj.Some?
    ensures !(req.path == "/" && s.isPathStyle) ==>
      (r == Failure(NoMethodOnNil) <==> PathElems(req.path, s.isPathStyle).None?)
    ensures !(req.path == "/" && s.isPathStyle) && PathElems(req.path, s.isPathStyle).Some? ==>
      var elems := PathElems(req.path, s.isPathStyle).value;
      (r == Failure(UnsupportedOperation) <==> |elems| == 0) &&
      (r.Success? ==>
        (s.isPathStyle ==> r.value.bucket == FirstOf(elems)) &&
        (r.value.requestType == Some(DeleteBucket) <==> |elems| == 1) &&
        (|elems| >= 2 ==> r.value.requestType == Some(DeleteObject) && r.value.obj == Some(Join(elems[1..], "/"))))
  {
    if req.path == "/" && s.isPathStyle then Success(s)
    else
      match PathElems(req.path, s.isPathStyle)
      case None => Failure(NoMethodOnNil)
      case Some(elems) =>
        var s1 := if s.isPathStyle then s.(bucket := FirstOf(elems)) else s;
        if |elems| == 0 then Failure(UnsupportedOperation)
        else if |elems| == 1 then Success(s1.(requestType := Some(DeleteBucket), query := Some(req.query)))
        else Success(s1.(requestType := Some(DeleteObject), obj := Some(Join(elems[1..], "/"))))
  }

  /** normalize_post: bucket and object only; the handler decides the operation. */
  function NormalizePost(req: HttpRequest, s: S3Request): (r: Result<S3Request, Fault>)
    ensures r.Failure? <==> s.isPathStyle && req.path == ""
    ensures r.Success? ==> (SameOrigin(r.value, s) && r.value.requestType == s.requestType &&
      r.value.query == s.query && r.value.srcBucket == s.srcBucket && r.value.srcObject == s.srcObject)
    ensures r.Success? ==> r.value.path == QueryValue(req.query, "key")
    ensures r.Success? && !s.isPathStyle ==> r.value.bucket == s.bucket && r.value.obj == DropFirst(req.path)
    ensures r.Success? && s.isPathStyle ==>
      PathElems(req.path, true).Some? &&
      var elems := PathElems(req.path, true).value;
      r.value.bucket == FirstOf(elems) &&
      r.value.obj == (if |elems| >= 2 then Some(Join(elems[1..], "/")) else s.obj)
  {
    var s0 := s.(path := QueryValue(req.query, "key"));
    if s.isPathStyle then
      match PathElems(req.path, true)
      case None => Failure(NoMethodOnNil)
      case Some(elems) =>
        var s1 := s0.(bucket := FirstOf(elems));
        if |elems| >= 2 then Success(s1.(obj := Some(Join(elems[1..], "/")))) else Success(s1)
    else Success(s0.(obj := DropFirst(req.path)))
  }

  /** normalize_request: resolve the addressing style, then classify by verb. */
  function NormalizeRequest(roots: seq<string>, isIpLiteral: string -> bool, req: HttpRequest): (r: Result<S3Request, Fault>)
    ensures Resolve(roots, isIpLiteral, req).Failure? ==> r == Resolve(roots, isIpLiteral, req)
    ensures r.Failure? && r.error == UnknownRequest <==>
      Resolve(roots, isIpLiteral, req).Success? && req.verb !in {"PUT", "GET", "HEAD", "DELETE", "POST"}
    ensures r.Success? ==> r.value.httpVerb == req.verb
    ensures r.Success? ==> r.value.requestType !in {Some(Head), Some(Move)}
    ensures r.Success? && req.verb == "POST" ==> r.value.requestType.None?
  {
    match Resolve(roots, isIpLiteral, req)
    case Failure(e) => Failure(e)
    case Success(s) =>
      if req.verb == "PUT" then NormalizePut(req, s)
      else if req.verb == "GET" || req.verb == "HEAD" then NormalizeGet(req, s)
      else if req.verb == "DELETE" then NormalizeDelete(req, s)
      else if req.verb == "POST" then NormalizePost(req, s)
      else Failure(UnknownRequest)
  }

  // ---------------------------------------------------------------------------
  // How paths and hosts map to buckets and keys
  // ---------------------------------------------------------------------------

  /** A first segment without '/', followed by nothing or by a '/'. */
  lemma FirstSegment(b: string, rest: string)
    requires b != "" && '/' !in b
    requires rest == "" || rest[0] == '/'
    ensures Split(b + rest, '/') != [] && Split(b + rest, '/')[0] == b
  {
    if rest == "" {
      assert b + rest == b;
      SplitFirst(b, '/');
    } else {
      assert b + rest == b + ['/'] + rest[1..];
      SplitCons(b, rest[1..], '/');
    }
  }

  /** "b/k" splits into b and the segments of k, which join back to k without its trailing slashes. */
  lemma BucketAndKey(b: string, k: string)
    requires '/' !in b && TrimEnd(k, '/') != ""
    ensures var e := Split(b + "/" + k, '/');
      |e| >= 2 && e[0] == b && Join(e[1..], "/") == TrimEnd(k, '/')
  {
    SplitEmptyIff(k, '/');
    SplitCons(b, k, '/');
    var e := Split(b + "/" + k, '/');
    assert e == [b] + Split(k, '/');
    assert e[1..] == Split(k, '/');
    JoinSplit(k, '/');
  }

  /** Path style, "/b/k": bucket b, key k (less trailing slashes); GET_ACL exactly when `acl` is empty. */
  lemma GetPathStyleObject(req: HttpRequest, s: S3Request, b: string, k: string)
    requires s.isPathStyle && req.path == "/" + b + "/" + k
    requires '/' !in b && TrimEnd(k, '/') != ""
    ensures NormalizeGet(req, s).Success?
    ensures NormalizeGet(req, s).value.bucket == Some(b)
    ensures NormalizeGet(req, s).value.obj == Some(TrimEnd(k, '/'))
    ensures NormalizeGet(req, s).value.requestType ==
      Some(if QueryValue(req.query, "acl") == Some("") then GetAcl else Get)
  {
    assert req.path != "/";
    assert req.path[1..] == b + "/" + k;
    BucketAndKey(b, k);
  }

  /** Path style, "/b" followed by any run of slashes ("/b/", "/b//"): a listing of bucket b carrying the query. */
  lemma GetPathStyleBucket(req: HttpRequest, s: S3Request, b: string, t: string)
    requires s.isPathStyle && req.path == "/" + b + t
    requires b != "" && '/' !in b && forall i :: 0 <= i < |t| ==> t[i] == '/'
    ensures NormalizeGet(req, s) ==
      Success(s.(bucket := Some(b), requestType := Some(LsBucket), query := Some(req.query)))
  {
    assert req.path[1..] == b + t;
    TrimEndSlashes(b, t);
    SplitTrimEnd(b + t, '/');
    SplitFirst(b, '/');
  }

  /** Trailing slashes after a segment without any are all that trimming removes. */
  lemma {:induction false} TrimEndSlashes(b: string, t: string)
    requires b != "" && '/' !in b && forall i :: 0 <= i < |t| ==> t[i] == '/'
    ensures TrimEnd(b + t, '/') == b
    decreases |t|
  {
    if t == [] {
      assert b + t == b;
      assert b[|b| - 1] in b;
    } else {
      var u := t[..|t| - 1];
      assert (b + t)[..|b + t| - 1] == b + u;
      TrimEndSlashes(b, u);
    }
  }

  /** Virtual-host style, "/k": the bucket stays the one from the host; "/" alone lists it. */
  lemma GetVirtualHost(req: HttpRequest, s: S3Request, k: string)
    requires !s.isPathStyle && req.path == "/" + k
    ensures NormalizeGet(req, s).Success?
    ensures NormalizeGet(req, s).value.bucket == s.bucket
    ensures TrimEnd(k, '/') == "" ==> NormalizeGet(req, s).value.requestType == Some(LsBucket)
    ensures TrimEnd(k, '/') != "" ==> NormalizeGet(req, s).value.obj == Some(TrimEnd(k, '/'))
  {
    assert req.path == "" + "/" + k;
    SplitCons("", k, '/');
    SplitEmptyIff(k, '/');
    if TrimEnd(k, '/') != "" {
      var e := Split(req.path, '/');
      assert e[1..] == Split(k, '/');
      JoinSplit(k, '/');
    }
  }

  /** Path style, "/b": create bucket b. */
  lemma PutPathStyleBucket(req: HttpRequest, s: S3Request, b: string, t: string)
    requires s.isPathStyle && req.path == "/" + b + t
    requires b != "" && '/' !in b && forall i :: 0 <= i < |t| ==> t[i] == '/'
    ensures ClassifyPutPath(req, s) == Success(s.(bucket := Some(b), requestType := Some(CreateBucket)))
  {
    assert req.path[1..] == b + t;
    TrimEndSlashes(b, t);
    SplitTrimEnd(b + t, '/');
    SplitFirst(b, '/');
  }

  /** Path style, a path of two or more slashes: no segment is left, and joining the rest raises. */
  lemma PutOnlySlashes(req: HttpRequest, s: S3Request, t: string)
    requires s.isPathStyle && req.path == "/" + t
    requires t != "" && forall i :: 0 <= i < |t| ==> t[i] == '/'
    ensures ClassifyPutPath(req, s) == Failure(NoMethodOnNil)
  {
    assert req.path[1..] == t;
    TrimEndEmptyIff(t, '/');
    SplitEmptyIff(t, '/');
  }

  /** Path style, "/b/k": store (or set the ACL of) key k in bucket b. */
  lemma PutPathStyleObject(req: HttpRequest, s: S3Request, b: string, k: string)
    requires s.isPathStyle && req.path == "/" + b + "/" + k
    requires '/' !in b && TrimEnd(k, '/') != ""
    ensures ClassifyPutPath(req, s) == Success(s.(bucket := Some(b),
      requestType := Some(AclOrStore(req.requestLine)), obj := Some(TrimEnd(k, '/'))))
  {
    assert req.path[1..] == b + "/" + k;
    BucketAndKey(b, k);
  }

  /** Virtual-host style, "/k" with k not empty: the key is k exactly, trailing slashes included. */
  lemma PutVirtualHost(req: HttpRequest, s: S3Request, k: string)
    requires !s.isPathStyle && req.path == "/" + k && k != ""
    ensures ClassifyPutPath(req, s) ==
      Success(s.(requestType := Some(AclOrStore(req.requestLine)), obj := Some(k)))
  {
    assert req.path != "/";
    assert req.path[1..] == k;
  }

  /** On a virtual host, GET drops a key's trailing slashes where PUT keeps them. */
  lemma GetPutDisagreeOnTrailingSlash(req: HttpRequest, s: S3Request, k: string)
    requires !s.isPathStyle && req.path == "/" + k
    requires TrimEnd(k, '/') != "" && k[|k| - 1] == '/'
    ensures NormalizeGet(req, s).Success? && ClassifyPutPath(req, s).Success?
    ensures NormalizeGet(req, s).value.obj != ClassifyPutPath(req, s).value.obj
  {
    GetVirtualHost(req, s, k);
    PutVirtualHost(req, s, k);
  }

  /** "b/k" splits into b and the segments of k. */
  lemma SplitBucketKey(b: string, k: string)
    requires b != "" && '/' !in b
    ensures Split(b + "/" + k, '/') == [b] + Split(k, '/')
  {
    SplitCons(b, k, '/');
  }

  /** "b/k": bucket b, and the key is unescaped after its segments are joined. */
  lemma CopySourcePlain(b: string, k: string)
    requires b != "" && '/' !in b
    ensures ParseCopySource(b + "/" + k) == Success((b, Unescape(TrimEnd(k, '/'))))
  {
    var e := Split(b + "/" + k, '/');
    SplitBucketKey(b, k);
    assert e[1..] == Split(k, '/');
    JoinSplit(k, '/');
  }

  /** A leading slash is optional: "/b/k" names the same source as "b/k". */
  lemma CopySourceLeadingSlash(b: string, k: string)
    requires b != "" && '/' !in b
    ensures ParseCopySource("/" + b + "/" + k) == Success((b, Unescape(TrimEnd(k, '/'))))
  {
    var e := Split("/" + b + "/" + k, '/');
    LeadingSlashSplit(b, k);
    assert e[1] == b && e[2..] == Split(k, '/');
    JoinSplit(k, '/');
  }

  /** "/b/k" splits into an empty first segment, b, and the segments of k. */
  lemma LeadingSlashSplit(b: string, k: string)
    requires b != "" && '/' !in b
    ensures Split("/" + b + "/" + k, '/') == [""] + ([b] + Split(k, '/'))
  {
    var v := b + "/" + k;
    SplitBucketKey(b, k);
    assert "/" + b + "/" + k == "" + "/" + v;
    SplitCons("", v, '/');
  }

  /** A copy source that is only slashes has no key to join: the request raises. */
  lemma CopySourceOnlySlashes(req: HttpRequest, s: S3Request)
    requires HeaderValues(req.header, "x-amz-copy-source") == ["/"]
    ensures ApplyCopySource(req, s) == Failure(NoMethodOnNil)
  {
    assert TrimEnd("/", '/') == "";
  }

  /** Path style, "/b": delete bucket b, carrying the query. */
  lemma DeletePathStyleBucket(req: HttpRequest, s: S3Request, b: string, t: string)
    requires s.isPathStyle && req.path == "/" + b + t
    requires b != "" && '/' !in b && forall i :: 0 <= i < |t| ==> t[i] == '/'
    ensures NormalizeDelete(req, s) ==
      Success(s.(bucket := Some(b), requestType := Some(DeleteBucket), query := Some(req.query)))
  {
    assert req.path[1..] == b + t;
    TrimEndSlashes(b, t);
    SplitTrimEnd(b + t, '/');
    SplitFirst(b, '/');
  }

  /** Path style, a path of two or more slashes: no segment is left, and the delete is unsupported. */
  lemma DeleteOnlySlashes(req: HttpRequest, s: S3Request, t: string)
    requires s.isPathStyle && req.path == "/" + t
    requires t != "" && forall i :: 0 <= i < |t| ==> t[i] == '/'
    ensures NormalizeDelete(req, s) == Failure(UnsupportedOperation)
  {
    assert req.path[1..] == t;
    TrimEndEmptyIff(t, '/');
    SplitEmptyIff(t, '/');
  }

  /** Path style, "/b/k": delete key k of bucket b. */
  lemma DeletePathStyleObject(req: HttpRequest, s: S3Request, b: string, k: string)
    requires s.isPathStyle && req.path == "/" + b + "/" + k
    requires '/' !in b && TrimEnd(k, '/') != ""
    ensures NormalizeDelete(req, s) ==
      Success(s.(bucket := Some(b), requestType := Some(DeleteObject), obj := Some(TrimEnd(k, '/'))))
  {
    assert req.path[1..] == b + "/" + k;
    BucketAndKey(b, k);
  }

  /**
   * Virtual-host style: "/" raises UnsupportedOperation and "/k" deletes key k,
   * so a bucket can be deleted only through a path-style request.
   */
  lemma DeleteVirtualHost(req: HttpRequest, s: S3Request, k: string)
    requires !s.isPathStyle && req.path == "/" + k
    ensures TrimEnd(k, '/') == "" ==> NormalizeDelete(req, s) == Failure(UnsupportedOperation)
    ensures TrimEnd(k, '/') != "" ==> (NormalizeDelete(req, s) ==
      Success(s.(requestType := Some(DeleteObject), obj := Some(TrimEnd(k, '/')))))
  {
    assert req.path == "" + "/" + k;
    SplitCons("", k, '/');
    SplitEmptyIff(k, '/');
    if TrimEnd(k, '/') != "" {
      var e := Split(req.path, '/');
      assert e[1..] == Split(k, '/');
      JoinSplit(k, '/');
    }
  }

  /** Path style, "/b/k": the form POST's bucket is b and its key k. */
  lemma PostPathStyleObject(req: HttpRequest, s: S3Request, b: string, k: string)
    requires s.isPathStyle && req.path == "/" + b + "/" + k
    requires '/' !in b && TrimEnd(k, '/') != ""
    ensures NormalizePost(req, s) ==
      Success(s.(path := QueryValue(req.query, "key"), bucket := Some(b), obj := Some(TrimEnd(k, '/'))))
  {
    assert req.path[1..] == b + "/" + k;
    BucketAndKey(b, k);
  }

  /** Whatever the verb and the path, a bucket named by the host is the request's bucket. */
  lemma VirtualHostBucketKept(roots: seq<string>, isIpLiteral: string -> bool, req: HttpRequest, b: string)
    requires HeaderText(req.header, "host").Some?
    requires ResolveHost(HostName(HeaderText(req.header, "host").value), roots, isIpLiteral) == Some(b)
    ensures NormalizeRequest(roots, isIpLiteral, req).Success? ==>
      NormalizeRequest(roots, isIpLiteral, req).value.bucket == Some(b) &&
      !NormalizeRequest(roots, isIpLiteral, req).value.isPathStyle
  {
  }

  /** Each classifier, in path style, takes its bucket from the first segment. */
  lemma PathStyleClassifiersAgree(req: HttpRequest, s: S3Request, b: string, rest: string)
    requires s.isPathStyle
    requires req.path == "/" + b + rest && b != "" && '/' !in b && (rest == "" || rest[0] == '/')
    ensures NormalizeGet(req, s).Success? && NormalizeGet(req, s).value.bucket == Some(b)
    ensures ClassifyPutPath(req, s).Success? && ClassifyPutPath(req, s).value.bucket == Some(b)
    ensures NormalizeDelete(req, s).Success? ==> NormalizeDelete(req, s).value.bucket == Some(b)
    ensures NormalizePost(req, s).Success? && NormalizePost(req, s).value.bucket == Some(b)
  {
    FirstSegment(b, rest);
    assert req.path != "/" && req.path[1..] == b + rest;
  }

  /** In path style, "/b" and "/b/..." name bucket b for every verb. */
  lemma PathStyleBucketIsFirstSegment(roots: seq<string>, isIpLiteral: string -> bool, req: HttpRequest,
                                      b: string, rest: string)
    requires HeaderText(req.header, "host").Some?
    requires ResolveHost(HostName(HeaderText(req.header, "host").value), roots, isIpLiteral).None?
    requires req.path == "/" + b + rest && b != "" && '/' !in b && (rest == "" || rest[0] == '/')
    ensures NormalizeRequest(roots, isIpLiteral, req).Success? ==>
      NormalizeRequest(roots, isIpLiteral, req).value.bucket == Some(b)
  {
    var s := Resolve(roots, isIpLiteral, req).value;
    PathStyleClassifiersAgree(req, s, b, rest);
  }

  /** HEAD is classified exactly as GET; only the recorded verb differs. */
  lemma HeadClassifiedAsGet(roots: seq<string>, isIpLiteral: string -> bool, req: HttpRequest)
    ensures var g := NormalizeRequest(roots, isIpLiteral, req.(verb := "GET"));
      var h := NormalizeRequest(roots, isIpLiteral, req.(verb := "HEAD"));
      g.Success? == h.Success? && (g.Success? ==> h.value == g.value.(httpVerb := "HEAD"))
  {
    var rg := req.(verb := "GET");
    var rh := req.(verb := "HEAD");
    var resolved := Resolve(roots, isIpLiteral, rg);
    if resolved.Success? {
      var sg := resolved.value;
      assert Resolve(roots, isIpLiteral, rh) == Success(sg.(httpVerb := "HEAD"));
      GetIgnoresVerb(rg, sg, "HEAD");
    }
  }

  /** normalize_get reads neither the verb of the request nor the one recorded so far. */
  lemma GetIgnoresVerb(req: HttpRequest, s: S3Request, v: string)
    ensures var g := NormalizeGet(req, s);
      var h := NormalizeGet(req.(verb := v), s.(httpVerb := v));
      g.Success? == h.Success? && (g.Success? ==> h.value == g.value.(httpVerb := v))
  {
  }
}
