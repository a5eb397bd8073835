# fake-s3 protocol layer, modelled in Dafny

fake-s3 is a small S3-compatible server: a WEBrick servlet that turns
HTTP requests into calls on an on-disk object store. This project models
the servlet's protocol layer (`lib/fakes3/server.rb`):

- **Addressing.** How the `Host` header decides between path-style and
  virtual-host requests. A virtual-host bucket is the shortest prefix `p`
  such that the host is `p` + "." + a root hostname.
- **Classification.** How `normalize_request` and its per-verb helpers fill
  in the `FakeS3::Request` record:
  - operation type, bucket and object key;
  - the copy source and the query.
  Path splitting and joining follow Ruby's `String#split` and `Array#join`,
  including the trailing empty fields `split` drops.
- **Part uploads.** The name a part is stored under, and
  `parse_complete_multipart_upload`, the tolerant scanner over a
  completion manifest.
- **Handlers.** What each handler (`do_GET`, `do_PUT`, `do_multipartPUT`,
  `do_POST`, `do_DELETE`, `do_OPTIONS`) leaves in the response:
  - status, header map and body;
  - the calls it makes on the store, in order;
  - the exception that escapes it, if any.

### Layout

- `ruby_text.dfy` (module `RubyText`): the Ruby string semantics the servlet
  relies on:
  - `split` and `join`;
  - the regex captures it uses;
  - `to_i` and `to_s`;
  - `CGI.unescape`;
  - `gsub` with a literal pattern.
- `http.dfy` (module `Http`): the parts of a WEBrick request the servlet
  reads. Header lookup joins repeated values with ", ".
- `addressing.dfy` (module `Addressing`): the root hostnames and the
  virtual-host resolver.
- `requests.dfy` (module `Requests`): the request record and the
  classifiers. Each classifier takes the record as it stands and returns it
  with the fields the Ruby code assigns. A Ruby exception becomes a `Fault`:
  - `raise "Unknown Request"`;
  - `UnsupportedOperation`;
  - a `NoMethodError` on nil.
- `multipart.dfy` (module `Multipart`): part names and the manifest scanner.
- `ranges.dfy` (module `Ranges`): the `Range` header, the `Content-Range`
  answer and `IO#read`. This is a loose form of sections 2.1 and 4.2 of
  RFC 7233.
- `storage.dfy` (module `Storage`): what the servlet sees of its
  collaborators:
  - the store's answers for one request;
  - the calls the servlet makes on the store;
  - the documents the XML adapter renders, kept as terms;
  - the response value.
- `replies.dfy` (module `Replies`): each handler's outcome as a function of
  the configuration, the request and the store's answers, and the lemmas
  that say what a client gets back.
- `handlers.dfy` (module `Handlers`): a `Response` class whose fields the
  handlers assign step by step, and a `Servlet` class whose imperative
  handler methods follow the Ruby control flow, early returns included.
  Each method is proved to leave exactly the outcome its `Replies` function
  describes.

The store is an oracle. A `StoreAnswers` value says what each store call
returns for the request at hand, and the handlers record the calls they make
as a sequence of `StoreCall` values. A call that receives the bucket object
`get_bucket` returned records that bucket's name, or None when it was nil
(`delete_object` and `combine_object_parts` on a missing bucket). The upload id that `SecureRandom.hex`
would produce is a parameter of `DoPost`.

The model is a set of proofs; nothing here is compiled or executed.

## Model

| member | source | states |
|---|---|---|
| `Addressing.HostName` | lib/fakes3/server.rb:477-478 | The host is the text of the Host header before its first colon, or the whole header when it has none. There is no host (None) iff the header is empty or only colons. |
| `Addressing.FirstSplitFrom` | lib/fakes3/server.rb:61 | Finds the first dot position at or after n where the host splits into a prefix, a dot and a root hostname, and proves no earlier position does. |
| `Addressing.VirtualHostBucket` | lib/fakes3/server.rb:485-487 | The non-greedy capture of `^(.*?)\.(roots)$`. A result decomposes the host, and no shorter prefix does. None means no prefix decomposes it. |
| `Addressing.ResolveHost` | lib/fakes3/server.rb:484-490 | A missing host, a root hostname or an IP literal yields no bucket. Otherwise a bucket is found iff some prefix decomposes the host, and it is the shortest one. |
| `Addressing.ShortestBucketWins` | lib/fakes3/server.rb:58-61 | "photos.s3.localhost" resolves to bucket "photos", not "photos.s3", because the capture is the shortest. |
| `Http.HeaderText` | lib/fakes3/server.rb:117 | `request[name]` is nil iff the header is absent, and is the value itself when there is exactly one. |
| `Http.ReadBody` | lib/fakes3/server.rb:513-514 | The loop that appends body chunks yields their concatenation. |
| `RubyText.Split` | lib/fakes3/server.rb:364 | `String#split` with one separator: no field contains the separator, the last field is never empty, and there are no more fields than plain field splitting gives. |
| `RubyText.JoinSplit` | lib/fakes3/server.rb:406 | Joining what split returned gives the string without its trailing separators. |
| `RubyText.JoinSplitExact` | lib/fakes3/server.rb:377 | On a string that does not end in the separator, join undoes split. |
| `RubyText.SplitEmptyIff` | lib/fakes3/server.rb:370 | Split yields [] iff the string is empty or made only of separators. |
| `RubyText.SplitTrimEnd` | lib/fakes3/server.rb:391 | Trailing separators do not change what split returns. |
| `RubyText.LeadingDigits` | lib/fakes3/server.rb:151 | `\d*` at a position: the longest run of digits there. |
| `RubyText.DigitsValueOfDecimal` | lib/fakes3/server.rb:152 | `to_i` reads back the number that `to_s` wrote. |
| `RubyText.GreedyCapture` | lib/fakes3/server.rb:522 | `(.+)` followed by a closing text: the capture stays on one line and ends at the LAST closing text on that line that leaves at least the minimum length. None means there is no such closing text. |
| `RubyText.UnescapeEscape` | lib/fakes3/server.rb:451 | `CGI.unescape` undoes percent-encoding of any byte string. |
| `RubyText.UnescapePlain` | lib/fakes3/server.rb:451 | A key without '%' or '+' is left as it is by `CGI.unescape`. |
| `RubyText.GsubAbsent` | lib/fakes3/server.rb:295 | `gsub` changes nothing when the pattern does not occur. |
| `RubyText.GsubSplice` | lib/fakes3/server.rb:295 | `gsub` replaces the first occurrence and carries on after it. |
| `Requests.Resolve` | lib/fakes3/server.rb:476-492 | A missing Host header raises (nil.split). Otherwise the bucket is `ResolveHost` of the Host header's name, the request is path-style iff that gave no bucket, no type, object, copy source or query is set yet, and path and verb are copied. |
| `Requests.NormalizeGet` | lib/fakes3/server.rb:383-410 | Path-style "" raises, and path-style "/" is LIST_BUCKETS. Otherwise, with the path's elements, the type is LS_BUCKET iff there are fewer than two, a path-style bucket is the first element, and the object is the other elements joined by "/". GET_ACL holds iff `query["acl"] == ""`. LS_BUCKET carries the query. Addressing, verb and copy source are unchanged. |
| `Requests.ClassifyPutPath` | lib/fakes3/server.rb:412-441 | Path "/" is CREATE_BUCKET iff a bucket came from the host, and leaves the type unset otherwise. Virtual-host: SET_ACL or STORE by `?acl`, with the path minus its first character as object and the host's bucket kept. Path style, with `elems` the segments after the first character: it raises (nil) iff there are none (path "" or only slashes). Otherwise the bucket is the first segment, the type is CREATE_BUCKET iff there is one segment, and two or more make the object the rest joined by "/". |
| `Requests.ParseCopySource` | lib/fakes3/server.rb:447-451 | The copy source raises iff it is empty or all slashes. The source bucket never contains '/'. |
| `Requests.ApplyCopySource` | lib/fakes3/server.rb:445-453 | Without exactly one x-amz-copy-source value the record is unchanged. With one, the type becomes COPY whatever it was, the source comes from `ParseCopySource`, and bucket and object are unchanged. |
| `Requests.NormalizePut` | lib/fakes3/server.rb:412-456 | normalize_put is the path classification followed by the copy-source override. |
| `Requests.NormalizeDelete` | lib/fakes3/server.rb:356-381 | Path-style "/" leaves the record unchanged. Otherwise, with `elems` the path's segments: a nil path raises NoMethodOnNil; no segment is UnsupportedOperation; one is DELETE_BUCKET carrying the query; two or more are DELETE_OBJECT of the rest joined by "/". A path-style bucket is the first segment, a virtual-host bucket is kept. |
| `Requests.NormalizePost` | lib/fakes3/server.rb:458-473 | Path-style "" raises. The record's path is the query's key. Path style: the bucket is the first segment, and the object is the rest joined by "/" when there are two or more segments, else unchanged. A virtual-host object is the path without its first character. |
| `Requests.NormalizeRequest` | lib/fakes3/server.rb:476-510 | Host faults come first. "Unknown Request" is raised iff the verb is none of PUT, GET, HEAD, DELETE, POST. The verb is recorded. HEAD and MOVE are never assigned, and POST leaves the type unset. |
| `Requests.GetPathStyleObject` | lib/fakes3/server.rb:390-407 | GET "/b/k" path-style: bucket b, object k without trailing slashes, GET_ACL iff `acl=""`. |
| `Requests.GetPathStyleBucket` | lib/fakes3/server.rb:390-399 | GET "/b" path-style, followed by any run of slashes ("/b/", "/b//"): LS_BUCKET on bucket b, carrying the query. |
| `Requests.GetVirtualHost` | lib/fakes3/server.rb:393-408 | Virtual-host GET keeps the host's bucket. A path of only slashes lists the bucket; otherwise the object is the path without its trailing slashes. |
| `Requests.PutPathStyleBucket` | lib/fakes3/server.rb:420-424 | PUT "/b" path-style, with any trailing slashes ("/b/"), is CREATE_BUCKET b. |
| `Requests.PutOnlySlashes` | lib/fakes3/server.rb:420-431 | PUT of a path-style path made only of slashes ("//") raises: no segment is left and `nil.join` fails. |
| `Requests.PutPathStyleObject` | lib/fakes3/server.rb:420-431 | PUT "/b/k" path-style stores (or sets the ACL of) object k without trailing slashes, in bucket b. |
| `Requests.PutVirtualHost` | lib/fakes3/server.rb:433-439 | Virtual-host PUT "/k": the object is k exactly, trailing slashes included. |
| `Requests.GetPutDisagreeOnTrailingSlash` | lib/fakes3/server.rb:394-439 | On a virtual host, a key ending in '/' names a different object for GET (split drops the slash) than for PUT (the raw path keeps it). |
| `Requests.CopySourcePlain` | lib/fakes3/server.rb:447-451 | "b/k" copies from bucket b, object `CGI.unescape(k)` without trailing slashes. |
| `Requests.CopySourceLeadingSlash` | lib/fakes3/server.rb:447-451 | "/b/k" is read as "b/k": the leading slash is skipped. |
| `Requests.CopySourceOnlySlashes` | lib/fakes3/server.rb:447-450 | A copy source of "/" raises (nil.join). |
| `Requests.DeletePathStyleBucket` | lib/fakes3/server.rb:363-374 | DELETE "/b" path-style, with any trailing slashes ("/b/"), is DELETE_BUCKET b, carrying the query. |
| `Requests.DeleteOnlySlashes` | lib/fakes3/server.rb:363-371 | DELETE of a path-style path made only of slashes ("//") is UnsupportedOperation. |
| `Requests.DeletePathStyleObject` | lib/fakes3/server.rb:363-378 | DELETE "/b/k" path-style is DELETE_OBJECT of k without trailing slashes, in bucket b. |
| `Requests.DeleteVirtualHost` | lib/fakes3/server.rb:366-378 | Virtual-host DELETE of "/" or only slashes raises UnsupportedOperation; otherwise it is DELETE_OBJECT of the key. |
| `Requests.PostPathStyleObject` | lib/fakes3/server.rb:466-469 | POST "/b/k" path-style: bucket b, object k without trailing slashes, path set to the query's key. |
| `Requests.VirtualHostBucketKept` | lib/fakes3/server.rb:484-489 | When the host names a bucket, every verb's classification keeps that bucket and stays virtual-host. |
| `Requests.PathStyleClassifiersAgree` | lib/fakes3/server.rb:391-392 | On a path-style request "/b…", GET, PUT and POST classify it with bucket b, and DELETE takes b too whenever it does not raise. |
| `Requests.PathStyleBucketIsFirstSegment` | lib/fakes3/server.rb:476-502 | When the host names no bucket, whatever the verb, a successful classification's bucket is the first path segment. |
| `Requests.HeadClassifiedAsGet` | lib/fakes3/server.rb:497-498 | HEAD is classified exactly as GET (same faults, same record) except for the recorded verb. |
| `Multipart.ParsePartName` | lib/fakes3/server.rb:219 | A name that parses is the part name of the upload id, object and part number it returns. |
| `Multipart.PartNameRoundTrip` | lib/fakes3/server.rb:219 | With an upload id free of '_' and a decimal part number, the part name parses back into its three components. |
| `Multipart.PartNamesDistinct` | lib/fakes3/server.rb:219 | Different part numbers of one upload and object never share a stored name. |
| `Multipart.ScanParts` | lib/fakes3/server.rb:517 | `scan(/<Part>.*?<\/Part>/m)`: every result is a fragment that opens with `<Part>` and ends at the first `</Part>` after it. A body without `<Part>` gives []. |
| `Multipart.ScanSkipsTo` | lib/fakes3/server.rb:517 | Text before the first place a `<Part>` starts does not change the scan. |
| `Multipart.ScanFirstFragment` | lib/fakes3/server.rb:517 | The first result of the scan is the text from the first `<Part>` to the first `</Part>` after that tag, and the rest is the scan of what follows it. |
| `Multipart.ScanUnclosed` | lib/fakes3/server.rb:517 | When no `</Part>` follows the first `<Part>`, the scan is []. |
| `Multipart.PartNumberLeftmost` | lib/fakes3/server.rb:521 | `xml[/<PartNumber>(\d+)<\/PartNumber>/, 1]` is the capture at the leftmost position where the pattern matches, and nil exactly when it matches nowhere. |
| `Multipart.EtagLeftmost` | lib/fakes3/server.rb:522 | `xml[/<ETag>"(.+)"<\/ETag>/, 1]` is the capture at the leftmost position where the pattern matches, and nil exactly when it matches nowhere. |
| `Multipart.NumberCapture` | lib/fakes3/server.rb:521 | A part-number capture is a non-empty digit run followed by `</PartNumber>`. |
| `Multipart.EntryOf` | lib/fakes3/server.rb:519-524 | A part's number is its PartNumber digits as an integer, 0 when absent (nil.to_i). Its ETag is the quoted capture, nil when absent. |
| `Multipart.ManifestParts` | lib/fakes3/server.rb:517-524 | One entry per scanned fragment, in body order and not sorted. A body without `<Part>` gives [], never an error. |
| `Multipart.ParseCompleteMultipartUpload` | lib/fakes3/server.rb:512-525 | Reading the body chunk by chunk and scanning it yields the manifest's parts. A body with no part yields []. |
| `Multipart.ScanPastPrefix` | lib/fakes3/server.rb:517 | Text that opens no `<Part>` before the first fragment does not change the scan. |
| `Multipart.ScanRenderedParts` | lib/fakes3/server.rb:517 | Rendered parts followed by text that opens none scan into exactly those fragments, in order. |
| `Multipart.EntryOfRenderedPart` | lib/fakes3/server.rb:521-522 | A rendered part reads back as its number and its unquoted ETag. |
| `Multipart.ManifestRoundTrip` | lib/fakes3/server.rb:512-524 | A well-formed CompleteMultipartUpload manifest reads back into exactly its parts, in the order sent: numbers as sent, ETags without their quotes. |
| `Ranges.RangeFrom` | lib/fakes3/server.rb:151 | The match of `bytes=(\d*)-(\d*)` at or after a position: both captures are digit runs. |
| `Ranges.RangeLeftmost` | lib/fakes3/server.rb:151 | `RangeFrom` is the leftmost match: when it matches, that is the match at some k with no match between the position and k; it gives None iff no position from there matches. |
| `Ranges.ParseRange` | lib/fakes3/server.rb:151 | The unanchored match of the Range header: digit captures, and a match at the start of the value is the one taken. |
| `Ranges.ParseRangeLeftmost` | lib/fakes3/server.rb:151 | The header's captures come from the leftmost matching position (none matches before it), and there are none iff no position matches. |
| `Ranges.LeftmostRange` | lib/fakes3/server.rb:151 | "xbytes=1-2,bytes=3-4" gives the captures ("1", "2"): the first match, wherever it starts. |
| `Ranges.RangeAtDigits` | lib/fakes3/server.rb:151 | Where "bytes=" is followed by digit runs a and b around a "-", and b is not followed by a digit, the match there captures (a, b). |
| `Ranges.PlanAsWritten` | lib/fakes3/server.rb:152-163 | As written: the start is the first number. An end of 0, absent or "0", becomes length-1. The read length is finish-start+1. |
| `Ranges.Plan` | lib/fakes3/server.rb:152-163 | Corrected: only an absent end means "to the end". It agrees with the as-written plan whenever the end is not an explicit 0. |
| `Ranges.IoRead` | lib/fakes3/server.rb:164-165 | `io.pos = start; io.read(n)`: a negative n raises and n = 0 gives "". A start at or past the end gives nil. Otherwise the bytes from start, up to n or the end. |
| `Ranges.ClosedRangeServed` | lib/fakes3/server.rb:149-166 | As written, "bytes=a-b" with a <= b inside the object and b > 0 parses, announces "bytes a-b/size", and reads exactly bytes a..b. The corrected plan is the same there. |
| `Ranges.OpenRangeServed` | lib/fakes3/server.rb:149-166 | "bytes=a-" announces "bytes a-(size-1)/size" and reads everything from a, in both plans. |
| `Ranges.ZeroEndReadsToEnd` | lib/fakes3/server.rb:151-165 | As written, "bytes=a-0" inside the object announces "bytes a-(size-1)/size" and reads everything from a. The corrected plan ends at 0. |
| `Ranges.RangePastEnd` | lib/fakes3/server.rb:162-165 | As written, an end past the object is announced as asked, and the read stops at the end. |
| `Ranges.BackwardRangeRaises` | lib/fakes3/server.rb:162-165 | As written, a start more than one past a nonzero end gives a negative read length, and IO#read raises. |
| `Ranges.EmptyObjectRange` | lib/fakes3/server.rb:155-165 | As written, on an empty object "bytes=0-" announces "bytes 0--1/0" and reads nothing. |
| `Ranges.FirstByteAsWritten` | lib/fakes3/server.rb:155-157 | "bytes=0-0" on an object of two or more bytes returns the whole object as written, and the first byte under the corrected plan. |
| `Ranges.ClosedRangeIntended` | lib/fakes3/server.rb:149-166 | Corrected: every "bytes=a-b" with a <= b inside the object, b = 0 included, announces "bytes a-b/size" and reads exactly bytes a..b. |
| `Storage.CorsHeaders` | lib/fakes3/server.rb:252-254 | Adds exactly the three CORS headers with their fixed values, and keeps every other header. |
| `Storage.MetadataHeadersKeys` | lib/fakes3/server.rb:142-144 | Copying custom metadata adds exactly the `x-amz-meta-` names, and leaves every other header unchanged. |
| `Storage.MetadataHeadersValues` | lib/fakes3/server.rb:142-144 | Each metadata entry's `x-amz-meta-` header carries its value. |
| `Storage.ListOptionsAsWritten` | lib/fakes3/server.rb:85-90 | As written, the LS_BUCKET options read marker, prefix, max_keys and delimiter from the query. |
| `Storage.ListOptionsOf` | lib/fakes3/server.rb:85-90 | Corrected: the page size is read from "max-keys", the other options as written. |
| `Storage.MaxKeysIgnoredAsWritten` | lib/fakes3/server.rb:88 | A client's `max-keys=2` reaches the store with no page size as written, and as "2" once corrected. |
| `Replies.Raised` | lib/fakes3/server.rb:504 | An exception raised before the handler touched the response leaves a fresh response and no store calls. |
| `Replies.StoreCalls` | lib/fakes3/server.rb:200-206 | get_bucket, then create_bucket exactly when there is no bucket, then store_object under the key. |
| `Replies.BucketObject` | lib/fakes3/server.rb:335 | The bucket `get_bucket` hands back, by name: present exactly when the store has the bucket, and then the requested name. |
| `Replies.OptionsHeaders` | lib/fakes3/server.rb:348-351 | OPTIONS adds exactly the four CORS preflight headers with their fixed values, and keeps every other header. |
| `Replies.GetClassifiedByHost` | lib/fakes3/server.rb:476-490 | The classification of GET and HEAD depends on no header but Host. |
| `Replies.ListingOptions` | lib/fakes3/server.rb:80-92 | A listing of an existing bucket answers 200 with the XML type after one get_bucket call. The listing of that bucket reads marker, prefix and delimiter from the query, and the page size from "max_keys", whatever "max-keys" holds. |
| `Replies.ListingMissingBucket` | lib/fakes3/server.rb:80-97 | A listing of a bucket the store does not have answers 404 with the XML type and a NoSuchBucket document, after one get_bucket call and with no exception. |
| `Replies.GetRouting` | lib/fakes3/server.rb:102-103 | A request classified as GET is answered by the object branch of do_GET. |
| `Replies.MissingOutcome` | lib/fakes3/server.rb:110-115 | A missing object gets a 404 NoSuchKey, whatever the conditional headers. |
| `Replies.MissingKeyIgnoresConditionals` | lib/fakes3/server.rb:103-115 | For a missing object do_GET answers 404 NoSuchKey with an XML content type and no exception. Changing any header but Host changes nothing. |
| `Replies.ReplicationRetry` | lib/fakes3/server.rb:103-108 | The store is asked once, or, when nothing is found and replication is on, replicated and asked again. It replicates exactly then. |
| `Replies.GetObjectCalls` | lib/fakes3/server.rb:103-108 | The object branch's store calls are the fetch and the optional replicate-and-retry, whatever follows. |
| `Replies.NoneMatchOutcome` | lib/fakes3/server.rb:117-121 | An If-None-Match of the quoted md5 or "*" on a found object gives a bare 304. |
| `Replies.NoneMatchWins` | lib/fakes3/server.rb:117-121 | do_GET answers a bare 304 to a matching If-None-Match, before If-Modified-Since is read. |
| `Replies.ModifiedOutcome` | lib/fakes3/server.rb:123-130 | An If-Modified-Since that does not parse raises. One at or after the modification time (equality included) gives 304. Otherwise the object is served. |
| `Replies.ModifiedSince` | lib/fakes3/server.rb:123-132 | The same three cases for do_GET as a whole. |
| `Replies.UnconditionalOutcome` | lib/fakes3/server.rb:132-174 | Without conditional headers a found object is served. |
| `Replies.UnconditionalServes` | lib/fakes3/server.rb:102-174 | do_GET serves a found object when no conditional header is present, with the fetch calls. |
| `Replies.FixedHeaders` | lib/fakes3/server.rb:133-140 | No fixed header name starts with 'x', so custom metadata never overwrites one. |
| `Replies.ServedFixedHeaders` | lib/fakes3/server.rb:133-140 | A served object carries its content type, HTTP-date Last-Modified, quoted-md5 ETag, Accept-Ranges "bytes", Last-Ranges "bytes" and CORS origin "*". |
| `Replies.ServedMetadata` | lib/fakes3/server.rb:142-144 | A served object carries each custom metadata entry as an `x-amz-meta-` header. |
| `Replies.RangeIsPartial` | lib/fakes3/server.rb:149-150 | Any Range header makes the status 206. |
| `Replies.ClosedRangeReply` | lib/fakes3/server.rb:149-166 | "bytes=a-b" inside the object with b > 0: 206, exactly bytes a..b, and the object headers plus "content-range: bytes a-b/size". |
| `Replies.ZeroEndReply` | lib/fakes3/server.rb:149-166 | "bytes=a-0" inside the object: 206, everything from a (the whole object for a = 0), and the object headers plus "content-range: bytes a-(size-1)/size". |
| `Replies.UnparsedRangeServesWhole` | lib/fakes3/server.rb:149-174 | A Range that does not match keeps 206 but sends the whole object (empty for HEAD) with its Content-Length. |
| `Replies.HeadLikeGet` | lib/fakes3/server.rb:169-174 | Without a parsed range, HEAD answers GET's status and headers with an empty body. |
| `Replies.PutRouting` | lib/fakes3/server.rb:182 | PUT goes to the part-upload handler iff the query names an uploadId. |
| `Replies.MultipartPutClassified` | lib/fakes3/server.rb:213-214 | do_multipartPUT classifies the request again with the same result, so it answers as its own branch. |
| `Replies.PartPutStoresUnderPartName` | lib/fakes3/server.rb:213-257 | A part upload answers 200 with an empty body, the quoted-md5 ETag and the CORS headers. It stores under `"#{id}_#{object}_part#{n}"`, which parses back into id, object and n. |
| `Replies.PutStores` | lib/fakes3/server.rb:184-207 | A plain STORE answers 200, empty, with exactly text/xml, CORS origin and ETag. The bucket is created iff it was missing, and the object is stored last. |
| `Replies.CopyFromMissingSource` | lib/fakes3/server.rb:190-197 | A copy whose source is missing gets 404 NoSuchKey, with the XML type over do_PUT's first headers, after a single copy_object call. |
| `Replies.PostClassified` | lib/fakes3/server.rb:259-260 | A classified POST is its branch followed by the closing headers. |
| `Replies.PostRouting` | lib/fakes3/server.rb:264-322 | `uploads` starts an upload with the random id and no store call. A form content type without uploadId is a form upload. Anything else raises BadRequest. |
| `Replies.PostEndsWithCors` | lib/fakes3/server.rb:324-327 | When the branch did not raise, POST's answer adds text/xml and the CORS headers, and keeps status, body, calls and every other header. |
| `Replies.CompleteUploadParts` | lib/fakes3/server.rb:275-286 | Completing an upload looks up the bucket, then combines exactly the manifest's parts in order, under the given uploadId and object. The combine call gets the bucket `get_bucket` returned: the bucket's name when it exists, nil (None) when it does not. |
| `Replies.FormNeedsKey` | lib/fakes3/server.rb:288-295 | A form upload without a key raises (nil.gsub). |
| `Replies.FormRedirects` | lib/fakes3/server.rb:302-305 | With success_action_redirect: 307, empty body, the Location and ETag headers, and the object stored under the substituted key. |
| `Replies.FormStatus` | lib/fakes3/server.rb:306-318 | Without a redirect, the status is success_action_status as given, or 204. The body is the PostResponse document iff that status is the string "201", and empty otherwise. |
| `Replies.FilenameFrom` | lib/fakes3/server.rb:294 | The capture of `filename="(.*)"` at or after a position stays on one line. |
| `Replies.FilenameLeftmost` | lib/fakes3/server.rb:294 | `FilenameFrom` is the leftmost match: when it gives a name, that is the capture at some k with no match between the position and k; it gives None iff no position from there matches. |
| `Replies.FilenameAtIff` | lib/fakes3/server.rb:294 | A match starts at k iff `filename="` starts there and a '"' follows on the same line. |
| `Replies.FilenameAbsent` | lib/fakes3/server.rb:294 | A body without `filename="` has no filename capture. |
| `Replies.FormFilenameDefault` | lib/fakes3/server.rb:293-294 | Without `filename="` in the body the filename is "default". |
| `Replies.FormFilenameNamed` | lib/fakes3/server.rb:294 | `filename="name"` at the end of a line gives name. |
| `Replies.FormKeyNamesFile` | lib/fakes3/server.rb:295 | A key "prefix${filename}" becomes prefix followed by the uploaded file's name. |
| `Replies.DeleteAnswers204` | lib/fakes3/server.rb:330-343 | DELETE always answers a bare 204. DELETE_OBJECT calls get_bucket and then delete_object with the bucket it returned (nil, None, for a missing bucket); DELETE_BUCKET calls delete_bucket with the name. |
| `Replies.ClassificationFaultsFirst` | lib/fakes3/server.rb:476-510 | When classification raises, every handler raises the same error with a fresh response and no store call. |
| `Handlers.Response.CopyMetadata` | lib/fakes3/server.rb:142-144 | The `custom_metadata.each` loop leaves exactly the metadata headers added to the previous ones, with status and body unchanged. |
| `Handlers.Servlet.ServeFound` | lib/fakes3/server.rb:132-174 | Setting status, headers, range and body step by step leaves exactly the `ServeObject` reply and fault, with the range read as written. |
| `Handlers.Servlet.GetObjectBranch` | lib/fakes3/server.rb:103-175 | The GET branch, with its early returns, leaves exactly `GetObjectOutcome`. |
| `Handlers.Servlet.DoGet` | lib/fakes3/server.rb:71-176 | do_GET leaves exactly `GetReply`: response, store calls and fault, with the listing options and the range read as written. |
| `Handlers.Servlet.DoPut` | lib/fakes3/server.rb:178-211 | do_PUT leaves exactly `PutReply`. |
| `Handlers.Servlet.DoMultipartPut` | lib/fakes3/server.rb:213-257 | do_multipartPUT leaves exactly `MultipartPutReply`. |
| `Handlers.Servlet.FormUpload` | lib/fakes3/server.rb:287-319 | The form-upload branch leaves exactly `FormOutcome`. |
| `Handlers.Servlet.PostBranchOf` | lib/fakes3/server.rb:264-322 | The branch selection of do_POST leaves exactly `PostBranch`, including the completion's combine call on the bucket `get_bucket` returned. |
| `Handlers.Servlet.DoPost` | lib/fakes3/server.rb:259-328 | do_POST leaves exactly `PostReply`. The closing headers are set only when no branch raised. |
| `Handlers.Servlet.DoDelete` | lib/fakes3/server.rb:330-343 | do_DELETE leaves exactly `DeleteReply`: delete_object is passed the bucket `get_bucket` returned, None when missing. |
| `Handlers.Servlet.DoOptions` | lib/fakes3/server.rb:345-352 | do_OPTIONS adds the preflight headers of `OptionsHeaders` and changes neither status nor body. |

## Left out

- WEBrick itself is not part of this model:
  - request parsing, `CGI::parse` of the URI query and the parsed form query are inputs;
  - turning an escaped exception into an error status is left to the reader of the `Fault`;
  - the `super` call that starts `do_OPTIONS` (server.rb:346) is left out.
- `validate_request` (server.rb:64-69) is left out. It only sends "100 Continue" to a waiting client, which is network I/O with no effect on the reply.
- The `Server` class (server.rb:539-577) is left out: TLS files, socket binding and signal handling. `lib/fakes3/cli.rb` is left out too: option parsing and process start-up.
- The object store's own behaviour is not part of this model:
  - its answers are parameters (`StoreAnswers`);
  - its calls are recorded, not performed;
  - nothing is claimed about the order of `combine_object_parts` or the listing done by `query_for_range`.
- The XML adapter and the inline heredoc documents are kept as `XmlDoc` terms. Their text, and the whitespace `strip` removes, are not modelled.
- `Time.httpdate`, `Time.iso8601` and `Time#httpdate` are functions in `Config`, and modification times are integers.
  - An unparsable If-Modified-Since raises (`InvalidHttpDate`).
  - A malformed stored modification date is the store's concern and is not modelled.
- `IPAddr.new(host) rescue nil` is an abstract predicate on the host (`Config.isIpLiteral`).
- `SecureRandom.hex` is the `uploadId` parameter of `DoPost`.
- `File::Stat#size` is the length of the object's content. The object's `io` is its byte sequence, and sending it whole is the `File` body.
- Logging (`logger`, `inspect`, `dump_request`) has no behaviour and is left out.
- Header names set with `response[name] =` are written already lowercased, as WEBrick stores them. Those set with `response.header[name] =` keep their case.
- `Requests.Resolve`: the `^`/`$` anchors of the bucket-host regex are read as start and end of the whole value. In Ruby they are line anchors; the model assumes the Host header holds no line break.
- `Replies.IsFormUpload`: the `^` of the form content-type regex is read as the start of the whole value, not of any line; the model assumes the Content-Type header holds no line break.
- The form fields (`query`) and the body are independent inputs of the model. In WEBrick, reading `query` (server.rb:261, 288, 462) parses the body when the content type is a form, and the body is read from the socket only once. So a later `request.body` with a block (server.rb:514) may receive no chunks. The model does not capture that both come from one read.
- RubyText.Unescape: strings are sequences of characters, and each `%XX` becomes the character with code XX. `CGI.unescape` returns a UTF-8 string, so "%C3%A9" is one character "é" in Ruby and two characters here. Keys are compared as byte strings throughout the model.
- `RubyText.Gsub`: the replacement text is inserted literally. Ruby would interpret backslash sequences such as `\0` in it, so a filename containing a backslash may differ.
- The `FakeS3::Request` object is a datatype. Each classifier returns the updated record instead of assigning fields of a shared object; nothing else holds a reference to it, so no aliasing is lost.
- `do_multipartPUT` calls `normalize_request` a second time. The model uses the first classification again, which is equal because classification is a function of the request (`Replies.MultipartPutClassified`).

## Findings

| source | as written | input that shows it | evidently intended | confidence | as-written member | corrected member |
|---|---|---|---|---|---|---|
| lib/fakes3/server.rb:88 | The LS_BUCKET page size is read from the query parameter "max_keys". | `GET /bucket?max-keys=2`, as S3 clients send it: the store gets no page size. | Read "max-keys", the S3 parameter name. | not executed | `Storage.ListOptionsAsWritten` (shown by `Storage.MaxKeysIgnoredAsWritten` and `Replies.ListingOptions`) | `Storage.ListOptionsOf` |
| lib/fakes3/server.rb:153-157 | `$2.to_i == 0` means "to the end", so an explicit last byte 0 is treated like an absent one. | `Range: bytes=0-0` on a two-byte object: both bytes are sent, with "bytes 0-1/2". | Only an empty second capture means "to the end"; "bytes=0-0" is the first byte (section 2.1 of RFC 7233). | not executed | `Ranges.PlanAsWritten` (shown by `Ranges.FirstByteAsWritten`, `Ranges.ZeroEndReadsToEnd` and `Replies.ZeroEndReply`) | `Ranges.Plan` (proved by `Ranges.ClosedRangeIntended`) |

The handlers follow the code as written. The corrected definitions sit beside them, with the intended property proved of each.
