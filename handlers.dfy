/**
 * FakeS3::Servlet as the imperative code it is: each do_* handler writes the
 * WEBrick response step by step, returns the calls it made on the store and
 * the exception it raised, and is proved to leave exactly what the matching
 * function of module Replies describes.
 */
module Handlers {
  import opened Wrappers
  import opened RubyText
  import opened Http
  import opened Requests
  import opened Multipart
  import opened Ranges
  import opened Storage
  import opened Replies

  /** WEBrick's HTTPResponse: a status, a header table and a body. */
  class Response {
    var status: Status
    var header: map<string, string>
    var body: Body

    /** A response as WEBrick hands it to a handler. */
    constructor ()
      ensures Snapshot() == Fresh
    {
      status := Code(200);
      header := map[];
      body := Text("");
    }

    function Snapshot(): Reply
      reads this
    {
      Reply(status, header, body)
    }

    /** `response.status = s`. */
    method SetStatus(s: Status)
      modifies this
      ensures status == s && header == old(header) && body == old(body)
    {
      status := s;
    }

    /** `response.body = b`. */
    method SetBody(b: Body)
      modifies this
      ensures body == b && status == old(status) && header == old(header)
    {
      body := b;
    }

    /** `response[name] = value` and `response.header[name] = value`, under the name WEBrick stores. */
    method Set(name: string, value: string)
      modifies this
      ensures header == old(header)[name := value] && status == old(status) && body == old(body)
    {
      header := header[name := value];
    }

    /** `custom_metadata.each { |name, value| response.header['x-amz-meta-' + name] = value }`. */
    method CopyMetadata(md: seq<(string, string)>)
      modifies this
      ensures header == MetadataHeaders(old(header), md) && status == old(status) && body == old(body)
    {
      var i := 0;
      while i < |md|
        invariant 0 <= i <= |md|
        invariant header == MetadataHeaders(old(header), md[..i])
        invariant status == old(status) && body == old(body)
      {
        assert md[..i + 1][..i] == md[..i];
        header := header[MetaPrefix + md[i].0 := md[i].1];
        i := i + 1;
      }
      assert md[..|md|] == md;
    }
  }

  /** The servlet, with the settings it was created with. */
  class Servlet {
    const config: Config

    constructor (config: Config)
      ensures this.config == config
    {
      this.config := config;
    }

    /** `get_bucket`, `create_bucket` when it finds none, then `store_object`. */
    static method StoreInBucket(calls: seq<StoreCall>, bucket: Option<string>, key: Option<string>, found: bool)
      returns (calls': seq<StoreCall>)
      ensures calls' == calls + StoreCalls(bucket, key, found)
    {
      calls' := calls + [GetBucket(bucket)];
      if !found {
        calls' := calls' + [NewBucket(bucket)];
      }
      calls' := calls' + [StoreObject(bucket, key)];
    }

    /** The tail of do_GET once the object is known and no conditional header stopped it (server.rb:130-174). */
    method ServeFound(req: HttpRequest, s: S3Request, o: StoredObject, response: Response) returns (fault: Option<Fault>)
      requires response.Snapshot() == Fresh
      modifies response
      ensures (response.Snapshot(), fault) == ServeObject(config, req, s, o)
    {
      fault := None;
      response.SetStatus(Code(200));
      response.Set("content-type", o.contentType);
      response.Set("last-modified", config.formatHttpDate(o.modified));
      response.Set("ETag", Quoted(o.md5));
      response.Set("accept-ranges", "bytes");
      response.Set("last-ranges", "bytes");
      response.Set("access-control-allow-origin", "*");
      assert response.header == FixedHeaders(config, o);
      response.CopyMetadata(o.customMetadata);
      var contentLength := |o.content|;
      var range := HeaderFirst(req.header, "range");
      if range.Some? {
        response.SetStatus(Code(206));
        var captures := ParseRange(range.value);
        if captures.Some? {
          var p := PlanAsWritten(captures.value.0, captures.value.1, contentLength);
          response.Set("content-range", p.contentRange);
          var read := IoRead(o.content, p.start, p.toRead);
          if read.Failure? {
            fault := Some(read.error);
            return;
          }
          response.SetBody(if read.value.Some? then Bytes(read.value.value) else NilBody);
          return;
        }
      }
      response.Set("content-length", IntString(contentLength));
      if s.httpVerb == "HEAD" {
        response.SetBody(Text(""));
      } else {
        response.SetBody(File(o.content));
      }
    }

    /** The GET branch of do_GET (server.rb:104-175). */
    method GetObjectBranch(req: HttpRequest, s: S3Request, st: StoreAnswers, response: Response)
      returns (calls: seq<StoreCall>, fault: Option<Fault>)
      requires response.Snapshot() == Fresh
      modifies response
      ensures Outcome(response.Snapshot(), calls, fault) == GetObjectOutcome(config, req, s, st)
    {
      calls := [GetObject(s.bucket, s.obj)];
      fault := None;
      var realObj := st.fetched;
      if realObj.None? && config.replicate {
        calls := calls + [ReplicateObject(s.bucket, s.obj)];
        calls := calls + [GetObject(s.bucket, s.obj)];
        realObj := st.replicated;
      }
      assert calls == FetchCalls(config, s, st) && realObj == Fetched(config, st);
      if realObj.None? {
        response.SetStatus(Code(404));
        response.SetBody(Xml(NoSuchKey(s.obj)));
        response.Set("content-type", "application/xml");
        return;
      }
      var o := realObj.value;
      var ifNoneMatch := HeaderText(req.header, "if-none-match");
      if ifNoneMatch == Some(Quoted(o.md5)) || ifNoneMatch == Some("*") {
        response.SetStatus(Code(304));
        return;
      }
      var ifModifiedSince := HeaderText(req.header, "if-modified-since");
      if ifModifiedSince.Some? {
        var time := config.httpDate(ifModifiedSince.value);
        if time.None? {
          fault := Some(InvalidHttpDate);
          return;
        }
        if time.value >= o.modified {
          response.SetStatus(Code(304));
          return;
        }
      }
      fault := ServeFound(req, s, o, response);
    }

    /** do_GET, for GET and HEAD (server.rb:71-176). */
    method DoGet(req: HttpRequest, st: StoreAnswers, response: Response)
      returns (calls: seq<StoreCall>, fault: Option<Fault>)
      requires response.Snapshot() == Fresh
      modifies response
      ensures Outcome(response.Snapshot(), calls, fault) == GetReply(config, req, st)
    {
      calls := [];
      fault := None;
      var classified := Classify(config, req);
      if classified.Failure? {
        fault := Some(classified.error);
        return;
      }
      var s := classified.value;
      if s.requestType == Some(ListBuckets) {
        response.SetStatus(Code(200));
        response.Set("content-type", "application/xml");
        calls := [ListAll];
        response.SetBody(Xml(BucketList(st.buckets)));
      } else if s.requestType == Some(LsBucket) {
        calls := [GetBucket(s.bucket)];
        if st.bucketExists {
          response.SetStatus(Code(200));
          response.Set("content-type", "application/xml");
          response.SetBody(Xml(BucketQuery(s.bucket, ListOptionsAsWritten(s.query.GetOr(map[])))));
        } else {
          response.SetStatus(Code(404));
          response.SetBody(Xml(NoSuchBucket(s.bucket)));
          response.Set("content-type", "application/xml");
        }
      } else if s.requestType == Some(GetAcl) {
        response.SetStatus(Code(200));
        response.SetBody(Xml(AccessPolicy));
        response.Set("content-type", "application/xml");
      } else if s.requestType == Some(Get) {
        calls, fault := GetObjectBranch(req, s, st, response);
      }
    }

    /** do_multipartPUT (server.rb:213-257). */
    method DoMultipartPut(req: HttpRequest, st: StoreAnswers, response: Response)
      returns (calls: seq<StoreCall>, fault: Option<Fault>)
      requires response.Snapshot() == Fresh
      modifies response
      ensures Outcome(response.Snapshot(), calls, fault) == MultipartPutReply(config, req, st)
    {
      calls := [];
      fault := None;
      var classified := Classify(config, req);
      if classified.Failure? {
        fault := Some(classified.error);
        return;
      }
      var s := classified.value;
      MultipartPutClassified(config, req, st, s);
      var partNumber := ParamFirst(req.params, "partNumber");
      var uploadId := ParamFirst(req.params, "uploadId");
      var partName := PartName(uploadId.GetOr(""), s.obj, partNumber);
      if s.requestType == Some(Copy) {
        calls := [CopyObject(s.srcBucket, s.srcObject, s.bucket, Some(partName))];
        var realObj := st.copied;
        if realObj.None? {
          response.SetStatus(Code(404));
          response.SetBody(Xml(NoSuchKey(s.obj)));
          response.Set("content-type", "application/xml");
          return;
        }
        response.Set("content-type", "text/xml");
        response.SetBody(Xml(CopyResult(realObj.value)));
      } else {
        calls := StoreInBucket(calls, s.bucket, Some(partName), st.bucketExists);
        response.SetBody(Text(""));
        response.Set("ETag", Quoted(st.stored.md5));
      }
      response.Set("access-control-allow-origin", "*");
      response.Set("access-control-allow-headers", "Authorization, Content-Length");
      response.Set("access-control-expose-headers", "ETag");
      response.SetStatus(Code(200));
    }

    /** do_PUT (server.rb:178-211). */
    method DoPut(req: HttpRequest, st: StoreAnswers, response: Response)
      returns (calls: seq<StoreCall>, fault: Option<Fault>)
      requires response.Snapshot() == Fresh
      modifies response
      ensures Outcome(response.Snapshot(), calls, fault) == PutReply(config, req, st)
    {
      calls := [];
      fault := None;
      var classified := Classify(config, req);
      if classified.Failure? {
        fault := Some(classified.error);
        return;
      }
      var s := classified.value;
      if ParamFirst(req.params, "uploadId").Some? {
        calls, fault := DoMultipartPut(req, st, response);
        return;
      }
      response.SetStatus(Code(200));
      response.SetBody(Text(""));
      response.Set("content-type", "text/xml");
      response.Set("access-control-allow-origin", "*");
      assert response.Snapshot() == PutBase;
      if s.requestType == Some(Copy) {
        calls := [CopyObject(s.srcBucket, s.srcObject, s.bucket, s.obj)];
        var copied := st.copied;
        if copied.None? {
          response.SetStatus(Code(404));
          response.SetBody(Xml(NoSuchKey(s.obj)));
          response.Set("content-type", "application/xml");
          return;
        }
        response.SetBody(Xml(CopyResult(copied.value)));
      } else if s.requestType == Some(Store) {
        calls := StoreInBucket(calls, s.bucket, s.obj, st.bucketExists);
        response.Set("ETag", Quoted(st.stored.md5));
      } else if s.requestType == Some(CreateBucket) {
        calls := [NewBucket(s.bucket)];
      }
    }

    /** A browser form upload (server.rb:290-320). */
    method FormUpload(req: HttpRequest, s: S3Request, st: StoreAnswers, response: Response)
      returns (calls: seq<StoreCall>, fault: Option<Fault>)
      requires response.Snapshot() == Fresh
      modifies response
      ensures Outcome(response.Snapshot(), calls, fault) == FormOutcome(config, req, s, st)
    {
      calls := [];
      fault := None;
      var key := QueryValue(req.query, "key");
      var redirect := QueryValue(req.query, "success_action_redirect");
      var successStatus := QueryValue(req.query, "success_action_status");
      var body := ReadBody(req.body);
      var filename := FormFilename(body);
      if key.None? {
        fault := Some(NoMethodOnNil);
        return;
      }
      var storedKey := Gsub(key.value, "${filename}", filename);
      calls := StoreInBucket(calls, s.bucket, Some(storedKey), st.bucketExists);
      response.Set("etag", Quoted(st.stored.md5));
      if redirect.Some? {
        response.SetStatus(Code(307));
        response.SetBody(Text(""));
        response.Set("location", redirect.value);
      } else {
        response.SetStatus(if successStatus.Some? then Given(successStatus.value) else Code(204));
        if response.status == Given("201") {
          var etag := response.header["etag"];
          response.SetBody(Xml(PostResponse(FormLocation(config, s.bucket, storedKey), s.bucket, storedKey, etag)));
        }
      }
    }

    /** do_POST (server.rb:259-328); uploadId is what SecureRandom.hex returns. */
    method DoPost(req: HttpRequest, st: StoreAnswers, uploadId: string, response: Response)
      returns (calls: seq<StoreCall>, fault: Option<Fault>)
      requires response.Snapshot() == Fresh
      modifies response
      ensures Outcome(response.Snapshot(), calls, fault) == PostReply(config, req, st, uploadId)
    {
      calls := [];
      fault := None;
      var classified := Classify(config, req);
      if classified.Failure? {
        fault := Some(classified.error);
        return;
      }
      var s := classified.value;
      PostClassified(config, req, st, uploadId, s);
      calls, fault := PostBranchOf(req, s, st, uploadId, response);
      if fault.Some? {
        return;
      }
      response.Set("content-type", "text/xml");
      response.Set("access-control-allow-origin", "*");
      response.Set("access-control-allow-headers", "Authorization, Content-Length");
      response.Set("access-control-expose-headers", "ETag");
    }

    /** The branch of do_POST the parameters select, up to the closing headers (server.rb:264-322). */
    method PostBranchOf(req: HttpRequest, s: S3Request, st: StoreAnswers, uploadId: string, response: Response)
      returns (calls: seq<StoreCall>, fault: Option<Fault>)
      requires response.Snapshot() == Fresh
      modifies response
      ensures Outcome(response.Snapshot(), calls, fault) == PostBranch(config, req, s, st, uploadId)
    {
      calls := [];
      fault := None;
      var key := QueryValue(req.query, "key");
      if "uploads" in req.params {
        response.SetBody(Xml(InitiateUpload(s.bucket, key, uploadId)));
      } else if "uploadId" in req.params {
        var id := ParamFirst(req.params, "uploadId");
        calls := [GetBucket(s.bucket)];
        var parts := ParseCompleteMultipartUpload(req.body);
        calls := calls + [CombineParts(BucketObject(s, st), id, s.obj, parts)];
        response.SetBody(Xml(CompleteResult(st.combined)));
      } else if IsFormUpload(HeaderText(req.header, "content-type")) {
        calls, fault := FormUpload(req, s, st, response);
      } else {
        fault := Some(BadRequest);
      }
    }

    /** do_DELETE (server.rb:330-343). */
    method DoDelete(req: HttpRequest, st: StoreAnswers, response: Response)
      returns (calls: seq<StoreCall>, fault: Option<Fault>)
      requires response.Snapshot() == Fresh
      modifies response
      ensures Outcome(response.Snapshot(), calls, fault) == DeleteReply(config, req, st)
    {
      calls := [];
      fault := None;
      var classified := Classify(config, req);
      if classified.Failure? {
        fault := Some(classified.error);
        return;
      }
      var s := classified.value;
      if s.requestType == Some(DeleteObject) {
        calls := [GetBucket(s.bucket), RemoveObject(BucketObject(s, st), s.obj)];
      } else if s.requestType == Some(DeleteBucket) {
        calls := [RemoveBucket(s.bucket)];
      }
      response.SetStatus(Code(204));
      response.SetBody(Text(""));
    }

    /** do_OPTIONS (server.rb:345-352): the CORS preflight headers, over whatever the response holds. */
    method DoOptions(response: Response)
      modifies response
      ensures response.header == OptionsHeaders(old(response.header))
      ensures response.status == old(response.status) && response.body == old(response.body)
    {
      response.Set("access-control-allow-origin", "*");
      response.Set("access-control-allow-methods", "PUT, POST, HEAD, GET, OPTIONS");
      response.Set("access-control-allow-headers", "Accept, Content-Type, Authorization, Content-Length, ETag");
      response.Set("access-control-expose-headers", "ETag");
    }
  }
}
