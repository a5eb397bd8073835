/**
 * The multipart-upload helpers of the servlet: the name under which a part
 * is stored (server.rb:215-219) and parse_complete_multipart_upload
 * (server.rb:512-525), the tolerant scanner over a completion manifest.
 */
module Multipart {
  import opened Wrappers
  import opened RubyText
  import opened Http

  const PartOpen := "<Part>"
  const PartClose := "</Part>"
  const NumberOpen := "<PartNumber>"
  const NumberClose := "</PartNumber>"
  const EtagOpen := "<ETag>\""
  const EtagClose := "\"</ETag>"

  // ---------------------------------------------------------------------------
  // Part names
  // ---------------------------------------------------------------------------

  /**
   * `"#{upload_id}_#{s_req.object}_part#{part_number}"`: nil interpolates as
   * the empty string.
   */
  function PartName(uploadId: string, obj: Option<string>, partNumber: Option<string>): string {
    uploadId + "_" + obj.GetOr("") + "_part" + partNumber.GetOr("")
  }

  /** The length of the run of digits at the end of s. */
  function TrailingCount(s: string): (k: nat)
    ensures k <= |s|
    ensures forall i :: |s| - k <= i < |s| ==> IsDigit(s[i])
    ensures k < |s| ==> !IsDigit(s[|s| - k - 1])
    decreases |s|
  {
    if s != [] && IsDigit(s[|s| - 1]) then 1 + TrailingCount(s[..|s| - 1]) else 0
  }

  /** The longest run of digits at the end of s. */
  function TrailingDigits(s: string): (r: string)
    ensures AllDigits(r) && |r| <= |s| && r == s[|s| - |r|..]
    ensures |r| < |s| ==> !IsDigit(s[|s| - |r| - 1])
  {
    s[|s| - TrailingCount(s)..]
  }

  lemma {:induction false} TrailingCountOf(a: string, d: string)
    requires AllDigits(d) && a != [] && !IsDigit(a[|a| - 1])
    ensures TrailingCount(a + d) == |d|
    decreases |d|
  {
    if d == [] {
      assert a + d == a;
    } else {
      var s := a + d;
      assert s[..|s| - 1] == a + d[..|d| - 1];
      TrailingCountOf(a, d[..|d| - 1]);
    }
  }

  lemma TrailingDigitsOf(a: string, d: string)
    requires AllDigits(d) && a != [] && !IsDigit(a[|a| - 1])
    ensures TrailingDigits(a + d) == d
  {
    TrailingCountOf(a, d);
    assert (a + d)[|a|..] == d;
  }

  /** The index of the first c in s. */
  function FirstIndex(s: string, c: char): (r: Option<nat>)
    ensures r.Some? ==> r.value < |s| && s[r.value] == c && c !in s[..r.value]
    ensures r.None? ==> c !in s
    decreases |s|
  {
    if s == [] then None
    else if s[0] == c then Some(0)
    else match FirstIndex(s[1..], c)
      case None => None
      case Some(i) => assert s[..i + 1] == [s[0]] + s[1..][..i]; Some(i + 1)
  }

  /**
   * Reads a part name back into its upload id, object key and part number:
   * the number is the run of digits that ends the name, the upload id runs to
   * the first underscore.
   */
  function ParsePartName(name: string): (r: Option<(string, string, string)>)
    ensures r.Some? ==> PartName(r.value.0, Some(r.value.1), Some(r.value.2)) == name
  {
    var n := TrailingDigits(name);
    var head := name[..|name| - |n|];
    if n == "" || |head| < 5 || head[|head| - 5..] != "_part" then None
    else
      var uo := head[..|head| - 5];
      match FirstIndex(uo, '_')
      case None => None
      case Some(i) =>
        assert uo == uo[..i] + "_" + uo[i + 1..];
        assert head == head[..|head| - 5] + head[|head| - 5..];
        assert head == uo + "_part";
        assert name == head + n;
        Some((uo[..i], uo[i + 1..], n))
  }

  /**
   * A part name determines its upload, object and part number when the upload
   * id has no underscore (SecureRandom.hex never yields one) and the part
   * number is a run of digits.
   */
  lemma PartNameRoundTrip(uploadId: string, obj: string, partNumber: string)
    requires '_' !in uploadId
    requires partNumber != "" && AllDigits(partNumber)
    ensures ParsePartName(PartName(uploadId, Some(obj), Some(partNumber))) == Some((uploadId, obj, partNumber))
  {
    var name := PartName(uploadId, Some(obj), Some(partNumber));
    var uo := uploadId + "_" + obj;
    var head := uo + "_part";
    assert name == head + partNumber;
    assert head[|head| - 1] == 't';
    TrailingDigitsOf(head, partNumber);
    assert name[..|name| - |partNumber|] == head;
    assert head[|head| - 5..] == "_part";
    assert head[..|head| - 5] == uo;
    FirstUnderscore(uploadId, obj);
    assert uo[..|uploadId|] == uploadId;
    assert uo[|uploadId| + 1..] == obj;
  }

  lemma FirstUnderscore(u: string, o: string)
    requires '_' !in u
    ensures FirstIndex(u + "_" + o, '_') == Some(|u|)
  {
    var uo := u + "_" + o;
    var fi := FirstIndex(uo, '_');
    assert uo[|u|] == '_';
    assert forall i :: 0 <= i < |u| ==> uo[i] == u[i];
  }

  /** Two parts of one upload and one object share a name only when they have the same number. */
  lemma PartNamesDistinct(uploadId: string, obj: string, n1: string, n2: string)
    requires '_' !in uploadId
    requires n1 != "" && AllDigits(n1) && n2 != "" && AllDigits(n2)
    requires PartName(uploadId, Some(obj), Some(n1)) == PartName(uploadId, Some(obj), Some(n2))
    ensures n1 == n2
  {
    PartNameRoundTrip(uploadId, obj, n1);
    PartNameRoundTrip(uploadId, obj, n2);
  }

  // ---------------------------------------------------------------------------
  // Scanning the completion manifest
  // ---------------------------------------------------------------------------

  /** The first index at or after from where p occurs in s. */
  function IndexOf(s: string, p: string, from: nat): (r: Option<nat>)
    requires from <= |s|
    ensures r.Some? ==> from <= r.value && r.value + |p| <= |s| && StartsWith(s[r.value..], p)
    ensures r.Some? ==> forall j :: from <= j < r.value ==> !StartsWith(s[j..], p)
    ensures r.None? ==> forall j :: from <= j <= |s| ==> !StartsWith(s[j..], p)
    decreases |s| - from
  {
    if StartsWith(s[from..], p) then Some(from)
    else if from == |s| then None
    else IndexOf(s, p, from + 1)
  }

  /**
   * A fragment as `/<Part>.*?<\/Part>/m` matches it: "<Part>", then anything,
   * up to the first "</Part>" after the opening tag.
   */
  predicate Fragment(f: string) {
    |f| >= |PartOpen| + |PartClose| && StartsWith(f, PartOpen) && f[|f| - |PartClose|..] == PartClose &&
    forall j :: |PartOpen| <= j < |f| - |PartClose| ==> !StartsWith(f[j..], PartClose)
  }

  /**
   * `parts_xml.scan(/<Part>.*?<\/Part>/m)`: the non-overlapping fragments in
   * body order, each the leftmost match in what the previous one left. An
   * opening tag with no closing tag after it ends the scan, since no later
   * opening tag can have one either.
   */
  function ScanParts(s: string): (r: seq<string>)
    ensures forall k :: 0 <= k < |r| ==> Fragment(r[k])
    ensures !Contains(s, PartOpen) ==> r == []
    decreases |s|
  {
    if StartsWith(s, PartOpen) then
      match IndexOf(s, PartClose, |PartOpen|)
      case None => []
      case Some(e) =>
        FragmentOfSlice(s, e);
        [s[..e + |PartClose|]] + ScanParts(s[e + |PartClose|..])
    else if s == [] then []
    else ScanParts(s[1..])
  }

  /** The text from an opening tag to the first closing tag after it is a fragment. */
  lemma FragmentOfSlice(s: string, e: nat)
    requires |PartOpen| <= e && e + |PartClose| <= |s|
    requires StartsWith(s, PartOpen) && StartsWith(s[e..], PartClose)
    requires forall j :: |PartOpen| <= j < e ==> !StartsWith(s[j..], PartClose)
    ensures Fragment(s[..e + |PartClose|])
  {
    var f := s[..e + |PartClose|];
    assert f[..|PartOpen|] == s[..|PartOpen|];
    assert f[|f| - |PartClose|..] == s[e..][..|PartClose|];
    forall j | |PartOpen| <= j < |f| - |PartClose| ensures !StartsWith(f[j..], PartClose) {
      assert f[j..][..|PartClose|] == s[j..][..|PartClose|];
    }
  }

  /** One entry of the parsed manifest: `{number: …, etag: …}`. */
  datatype PartEntry = PartEntry(number: nat, etag: Option<string>)

  /** `(\d+)<\/PartNumber>` matched at the start of t; `\d+` cannot give back a digit to the '<'. */
  function NumberCapture(t: string): (r: Option<string>)
    ensures r.Some? ==> r.value != "" && AllDigits(r.value) && StartsWith(t, r.value)
    ensures r.Some? ==> StartsWith(t[|r.value|..], NumberClose)
  {
    var d := LeadingDigits(t);
    if d != "" && StartsWith(t[|d|..], NumberClose) then Some(d) else None
  }

  /** `xml[/<PartNumber>(\d+)<\/PartNumber>/, 1]`: the capture of the leftmost match in s. */
  function PartNumberIn(s: string): (r: Option<string>)
    ensures r.Some? ==> r.value != "" && AllDigits(r.value)
    decreases |s|
  {
    if StartsWith(s, NumberOpen) && NumberCapture(s[|NumberOpen|..]).Some? then NumberCapture(s[|NumberOpen|..])
    else if s == [] then None
    else PartNumberIn(s[1..])
  }

  /** `xml[/<ETag>"(.+)"<\/ETag>/, 1]`: the capture of the leftmost match in s (`.` stops at a line feed). */
  function EtagIn(s: string): (r: Option<string>)
    ensures r.Some? ==> r.value != "" && '\n' !in r.value
    decreases |s|
  {
    if StartsWith(s, EtagOpen) && GreedyCapture(s[|EtagOpen|..], EtagClose, 1).Some? then
      GreedyCapture(s[|EtagOpen|..], EtagClose, 1)
    else if s == [] then None
    else EtagIn(s[1..])
  }

  /** The entry for one fragment: `nil.to_i` is 0 when there is no part number. */
  function EntryOf(xml: string): (r: PartEntry)
    ensures PartNumberIn(xml).None? ==> r.number == 0
    ensures PartNumberIn(xml).Some? ==> r.number == DigitsValue(PartNumberIn(xml).value)
    ensures r.etag == EtagIn(xml)
  {
    var n := match PartNumberIn(xml)
      case None => 0
      case Some(d) => DigitsValue(d);
    PartEntry(n, EtagIn(xml))
  }

  /** parse_complete_multipart_upload on the assembled body: one entry per fragment, unsorted. */
  function ManifestParts(body: string): (r: seq<PartEntry>)
    ensures |r| == |ScanParts(body)|
    ensures forall k :: 0 <= k < |r| ==> r[k] == EntryOf(ScanParts(body)[k])
    ensures !Contains(body, PartOpen) ==> r == []
  {
    var frags := ScanParts(body);
    seq(|frags|, k requires 0 <= k < |frags| => EntryOf(frags[k]))
  }

  /** The servlet's loop over the body chunks, then the scan. */
  method ParseCompleteMultipartUpload(chunks: seq<string>) returns (parts: seq<PartEntry>)
    ensures parts == ManifestParts(Concat(chunks))
    ensures !Contains(Concat(chunks), PartOpen) ==> parts == []
  {
    var partsXml := ReadBody(chunks);
    parts := ManifestParts(partsXml);
  }

  // ---------------------------------------------------------------------------
  // Searching past text that cannot hold a tag
  // ---------------------------------------------------------------------------

  /** The first occurrence at or after from is at k. */
  lemma IndexOfIs(s: string, p: string, from: nat, k: nat)
    requires from <= k && k + |p| <= |s| && StartsWith(s[k..], p)
    requires forall j :: from <= j < k ==> !StartsWith(s[j..], p)
    ensures IndexOf(s, p, from) == Some(k)
  {
  }

  /** A text in which no "<Part>" can start, whatever follows it. */
  predicate NoPartOpen(g: string) {
    NoTagStart(g, PartOpen)
  }

  /** The search for a part number passes over a text in which "<PartNumber>" cannot start. */
  lemma {:induction false} PartNumberPast(g: string, y: string)
    requires NoTagStart(g, NumberOpen)
    ensures PartNumberIn(g + y) == PartNumberIn(y)
    decreases |g|
  {
    if g == [] {
      assert g + y == y;
    } else {
      TagCannotStart(g, y, NumberOpen);
      assert (g + y)[0..] == g + y;
      assert (g + y)[1..] == g[1..] + y;
      NoTagStartTail(g, NumberOpen);
      PartNumberPast(g[1..], y);
    }
  }

  /** The search for an ETag passes over a text in which `<ETag>"` cannot start. */
  lemma {:induction false} EtagPast(g: string, y: string)
    requires NoTagStart(g, EtagOpen)
    ensures EtagIn(g + y) == EtagIn(y)
    decreases |g|
  {
    if g == [] {
      assert g + y == y;
    } else {
      TagCannotStart(g, y, EtagOpen);
      assert (g + y)[0..] == g + y;
      assert (g + y)[1..] == g[1..] + y;
      NoTagStartTail(g, EtagOpen);
      EtagPast(g[1..], y);
    }
  }

  // ---------------------------------------------------------------------------
  // The leftmost match
  // ---------------------------------------------------------------------------

  /** The capture of `/<PartNumber>(\d+)<\/PartNumber>/` when the match starts at k. */
  function NumberAt(s: string, k: nat): Option<string>
    requires k <= |s|
  {
    if StartsWith(s[k..], NumberOpen) then NumberCapture(s[k..][|NumberOpen|..]) else None
  }

  /** The capture of `/<ETag>"(.+)"<\/ETag>/` when the match starts at k. */
  function EtagAt(s: string, k: nat): Option<string>
    requires k <= |s|
  {
    if StartsWith(s[k..], EtagOpen) then GreedyCapture(s[k..][|EtagOpen|..], EtagClose, 1) else None
  }

  /** No part number matches at any start before k. */
  predicate NoNumberBefore(s: string, k: nat) {
    forall j :: 0 <= j <= |s| && j < k ==> NumberAt(s, j).None?
  }

  /** No ETag matches at any start before k. */
  predicate NoEtagBefore(s: string, k: nat) {
    forall j :: 0 <= j <= |s| && j < k ==> EtagAt(s, j).None?
  }

  lemma NumberAtShift(s: string, j: nat)
    requires 1 <= j <= |s|
    ensures NumberAt(s, j) == NumberAt(s[1..], j - 1)
  {
    assert s[j..] == s[1..][j - 1..];
  }

  lemma EtagAtShift(s: string, j: nat)
    requires 1 <= j <= |s|
    ensures EtagAt(s, j) == EtagAt(s[1..], j - 1)
  {
    assert s[j..] == s[1..][j - 1..];
  }

  /** No part number matches before k + 1 in s: then none matches before k in its tail. */
  lemma NoNumberBeforeTail(s: string, k: nat)
    requires s != [] && k <= |s| && NoNumberBefore(s, k + 1)
    ensures NoNumberBefore(s[1..], k)
  {
    forall j | 0 <= j <= |s[1..]| && j < k ensures NumberAt(s[1..], j).None? {
      NumberAtShift(s, j + 1);
    }
  }

  /** None at 0 and none before k in the tail: no part number matches before k + 1 in s. */
  lemma NoNumberBeforeCons(s: string, k: nat)
    requires s != [] && k <= |s| && NumberAt(s, 0).None? && NoNumberBefore(s[1..], k)
    ensures NoNumberBefore(s, k + 1)
  {
    forall j | 1 <= j <= |s| && j < k + 1 ensures NumberAt(s, j).None? {
      NumberAtShift(s, j);
    }
  }

  /** No ETag matches before k + 1 in s: then none matches before k in its tail. */
  lemma NoEtagBeforeTail(s: string, k: nat)
    requires s != [] && k <= |s| && NoEtagBefore(s, k + 1)
    ensures NoEtagBefore(s[1..], k)
  {
    forall j | 0 <= j <= |s[1..]| && j < k ensures EtagAt(s[1..], j).None? {
      EtagAtShift(s, j + 1);
    }
  }

  /** None at 0 and none before k in the tail: no ETag matches before k + 1 in s. */
  lemma NoEtagBeforeCons(s: string, k: nat)
    requires s != [] && k <= |s| && EtagAt(s, 0).None? && NoEtagBefore(s[1..], k)
    ensures NoEtagBefore(s, k + 1)
  {
    forall j | 1 <= j <= |s| && j < k + 1 ensures EtagAt(s, j).None? {
      EtagAtShift(s, j);
    }
  }

  /**
   * PartNumberIn is the capture of the leftmost match, and None exactly when
   * no start in s matches.
   */
  lemma {:induction false} PartNumberLeftmost(s: string)
    ensures PartNumberIn(s).Some? ==>
      exists k :: 0 <= k <= |s| && NumberAt(s, k) == PartNumberIn(s) && NoNumberBefore(s, k)
    ensures PartNumberIn(s).None? <==> NoNumberBefore(s, |s| + 1)
    decreases |s|
  {
    assert s[0..] == s;
    if NumberAt(s, 0).Some? {
      assert NumberAt(s, 0) == PartNumberIn(s);
    } else if s != [] {
      assert PartNumberIn(s) == PartNumberIn(s[1..]);
      PartNumberLeftmost(s[1..]);
      if PartNumberIn(s).Some? {
        var k :| 0 <= k <= |s[1..]| && NumberAt(s[1..], k) == PartNumberIn(s[1..]) && NoNumberBefore(s[1..], k);
        NumberAtShift(s, k + 1);
        NoNumberBeforeCons(s, k);
        if NoNumberBefore(s, |s| + 1) {
          NoNumberBeforeTail(s, |s|);
        }
      } else {
        NoNumberBeforeCons(s, |s|);
      }
    }
  }

  /** EtagIn is the capture of the leftmost match, and None exactly when no start in s matches. */
  lemma {:induction false} EtagLeftmost(s: string)
    ensures EtagIn(s).Some? ==>
      exists k :: 0 <= k <= |s| && EtagAt(s, k) == EtagIn(s) && NoEtagBefore(s, k)
    ensures EtagIn(s).None? <==> NoEtagBefore(s, |s| + 1)
    decreases |s|
  {
    assert s[0..] == s;
    if EtagAt(s, 0).Some? {
      assert EtagAt(s, 0) == EtagIn(s);
    } else if s != [] {
      assert EtagIn(s) == EtagIn(s[1..]);
      EtagLeftmost(s[1..]);
      if EtagIn(s).Some? {
        var k :| 0 <= k <= |s[1..]| && EtagAt(s[1..], k) == EtagIn(s[1..]) && NoEtagBefore(s[1..], k);
        EtagAtShift(s, k + 1);
        NoEtagBeforeCons(s, k);
        if NoEtagBefore(s, |s| + 1) {
          NoEtagBeforeTail(s, |s|);
        }
      } else {
        NoEtagBeforeCons(s, |s|);
      }
    }
  }

  /** No "</Part>" starts in s at or after a and before b. */
  predicate NoCloseBetween(s: string, a: nat, b: nat)
    requires b <= |s| + 1
  {
    forall j :: a <= j < b ==> !StartsWith(s[j..], PartClose)
  }

  lemma NoneBeforeTail(s: string, p: string, k: nat)
    requires 1 <= k <= |s| && NoneBefore(s, p, k)
    ensures NoneBefore(s[1..], p, k - 1)
  {
    forall j | 0 <= j < k - 1 ensures !StartsWith(s[1..][j..], p) {
      assert s[1..][j..] == s[j + 1..];
    }
  }

  lemma NoCloseTail(s: string, a: nat, b: nat)
    requires s != [] && 1 <= a <= b <= |s| + 1 && NoCloseBetween(s, a, b)
    ensures NoCloseBetween(s[1..], a - 1, b - 1)
  {
    forall j | a - 1 <= j < b - 1 ensures !StartsWith(s[1..][j..], PartClose) {
      assert s[1..][j..] == s[j + 1..];
    }
  }

  /** From an opening tag at p, the scan runs to the first "</Part>" at e after that tag. */
  lemma ScanAtOpening(s: string, p: nat, e: nat)
    requires p + |PartOpen| <= e && e + |PartClose| <= |s|
    requires StartsWith(s[p..], PartOpen)
    requires StartsWith(s[e..], PartClose) && NoCloseBetween(s, p + |PartOpen|, e)
    ensures ScanParts(s[p..]) == [s[p..e + |PartClose|]] + ScanParts(s[e + |PartClose|..])
  {
    var f, rest := s[p..e + |PartClose|], s[e + |PartClose|..];
    assert s[p..] == f + rest;
    assert Fragment(f) by {
      NoCloseDrop(s, p, |PartOpen|, e - p);
      DropSlices(s, p, e - p, |PartClose|);
      FragmentOfSlice(s[p..], e - p);
    }
    ScanFragmentFirst(f, rest);
  }

  /** A text that does not open with "<Part>" scans as its tail does. */
  lemma ScanSkipsFirst(s: string)
    requires s != [] && !StartsWith(s, PartOpen)
    ensures ScanParts(s) == ScanParts(s[1..])
  {
  }

  /** The scan starts at the first place a "<Part>" can start. */
  lemma {:induction false} ScanSkipsTo(s: string, p: nat)
    requires p <= |s| && NoneBefore(s, PartOpen, p)
    ensures ScanParts(s) == ScanParts(s[p..])
    decreases p
  {
    if p > 0 {
      assert s[0..] == s;
      ScanSkipsFirst(s);
      NoneBeforeTail(s, PartOpen, p);
      ScanSkipsTo(s[1..], p - 1);
      assert s[1..][p - 1..] == s[p..];
    }
  }

  /**
   * The first fragment of the scan: from the first "<Part>" at p to the first
   * "</Part>" at e after that opening tag; the rest is the scan of what follows.
   */
  lemma ScanFirstFragment(s: string, p: nat, e: nat)
    requires p + |PartOpen| <= e && e + |PartClose| <= |s|
    requires StartsWith(s[p..], PartOpen) && NoneBefore(s, PartOpen, p)
    requires StartsWith(s[e..], PartClose) && NoCloseBetween(s, p + |PartOpen|, e)
    ensures ScanParts(s) == [s[p..e + |PartClose|]] + ScanParts(s[e + |PartClose|..])
  {
    ScanSkipsTo(s, p);
    ScanAtOpening(s, p, e);
  }

  lemma NoCloseDrop(s: string, p: nat, a: nat, b: nat)
    requires p <= |s| && p + b <= |s| + 1 && NoCloseBetween(s, p + a, p + b)
    ensures NoCloseBetween(s[p..], a, b)
  {
    forall j | a <= j < b ensures !StartsWith(s[p..][j..], PartClose) {
      assert s[p..][j..] == s[p + j..];
    }
  }

  lemma DropSlices(s: string, p: nat, m: nat, n: nat)
    requires p + m + n <= |s|
    ensures s[p..][m..] == s[p + m..]
    ensures s[p..][..m + n] == s[p..p + m + n]
    ensures s[p..][m + n..] == s[p + m + n..]
  {
  }

  /** A first "<Part>" with no "</Part>" after it ends the scan with nothing. */
  lemma ScanUnclosed(s: string, p: nat)
    requires p + |PartOpen| <= |s| + 1
    requires StartsWith(s[p..], PartOpen) && NoneBefore(s, PartOpen, p)
    requires NoCloseBetween(s, p + |PartOpen|, |s| + 1)
    ensures ScanParts(s) == []
  {
    ScanSkipsTo(s, p);
    NoCloseDrop(s, p, |PartOpen|, |s| - p + 1);
  }

  // ---------------------------------------------------------------------------
  // What the scanner reads back from a well-formed manifest
  // ---------------------------------------------------------------------------

  /** The fragment a client sends for part n with the given ETag, nested the way the scanner reads it. */
  function RenderPart(n: nat, etag: string): string {
    PartOpen + (NumberOpen + (DecimalString(n) + (NumberClose + (EtagOpen + (etag + (EtagClose + PartClose))))))
  }

  /** The parts of a manifest, in order. */
  function RenderParts(parts: seq<(nat, string)>): string
    decreases |parts|
  {
    if parts == [] then "" else RenderPart(parts[0].0, parts[0].1) + RenderParts(parts[1..])
  }

  const ManifestOpen := "<CompleteMultipartUpload>"
  const ManifestClose := "</CompleteMultipartUpload>"

  /** A completion manifest as clients send it. */
  function RenderManifest(parts: seq<(nat, string)>): string {
    ManifestOpen + (RenderParts(parts) + ManifestClose)
  }

  /** An ETag the scanner can read back: non-empty, on one line, with no tag inside. */
  predicate PlainEtag(e: string) {
    e != [] && '<' !in e && '\n' !in e
  }

  /** The first p in s starts at or after k. */
  predicate NoneBefore(s: string, p: string, k: nat)
    requires k <= |s|
  {
    forall j :: 0 <= j < k ==> !StartsWith(s[j..], p)
  }

  /** Where p cannot start in x, nor before k in v, it cannot start before |x| + k in x + v. */
  lemma NoneBeforeJoin(x: string, v: string, p: string, k: nat)
    requires k <= |v| && NoneBefore(x + v, p, |x|) && NoneBefore(v, p, k)
    ensures NoneBefore(x + v, p, |x| + k)
  {
    forall j | |x| <= j < |x| + k ensures !StartsWith((x + v)[j..], p) {
      assert (x + v)[j..] == v[j - |x|..];
    }
  }

  /** A prefix in which p cannot start moves the first possible start of p along. */
  lemma NoneBeforePast(g: string, y: string, p: string, k: nat)
    requires |p| >= 2 && NoTagStart(g, p) && k <= |y| && NoneBefore(y, p, k)
    ensures NoneBefore(g + y, p, |g| + k)
  {
    TagCannotStart(g, y, p);
    NoneBeforeJoin(g, y, p, k);
  }

  /** Inside "</PartNumber>" a "</Part>" cannot start: the one place it could differs at its seventh character. */
  lemma NumberCloseNotPartClose(y: string)
    ensures NoneBefore(NumberClose + y, PartClose, |NumberClose|)
  {
    var s := NumberClose + y;
    assert forall j :: 0 <= j < |NumberClose| && NumberClose[j] == '<' ==> j == 0;
    forall j | 0 <= j < |NumberClose| ensures !StartsWith(s[j..], PartClose) {
      if j == 0 {
        Mismatch(s, 0, PartClose, 6);
      } else {
        Mismatch(s, j, PartClose, 0);
      }
    }
  }

  /** Inside `"</ETag>` a "</Part>" cannot start: the one place it could differs at its third character. */
  lemma EtagCloseNotPartClose(y: string)
    ensures NoneBefore(EtagClose + y, PartClose, |EtagClose|)
  {
    var s := EtagClose + y;
    assert forall j :: 0 <= j < |EtagClose| && EtagClose[j] == '<' ==> j == 1;
    forall j | 0 <= j < |EtagClose| ensures !StartsWith(s[j..], PartClose) {
      if j == 1 {
        Mismatch(s, 1, PartClose, 2);
      } else {
        Mismatch(s, j, PartClose, 0);
      }
    }
  }

  /** The literal tags in which "</Part>" cannot start at all. */
  lemma TagsWithoutPartClose()
    ensures NoTagStart(NumberOpen, PartClose) && NoTagStart(EtagOpen, PartClose)
  {
    assert forall j :: 0 <= j < |NumberOpen| && NumberOpen[j] == '<' ==> j == 0;
    assert forall j :: 0 <= j < |EtagOpen| && EtagOpen[j] == '<' ==> j == 0;
  }

  /** In a rendered part the first "</Part>" after the opening tag is the closing one. */
  lemma RenderedBodyNoClose(d: string, e: string)
    requires AllDigits(d) && PlainEtag(e)
    ensures var m := NumberOpen + (d + (NumberClose + (EtagOpen + (e + (EtagClose + PartClose)))));
      NoneBefore(m, PartClose, |m| - |PartClose|)
  {
    var w := EtagClose + PartClose;
    EtagCloseNotPartClose(PartClose);
    assert NoTagStart(e, PartClose);
    NoneBeforePast(e, w, PartClose, |EtagClose|);
    TagsWithoutPartClose();
    NoneBeforePast(EtagOpen, e + w, PartClose, |e| + |EtagClose|);
    var v := EtagOpen + (e + w);
    NumberCloseNotPartClose(v);
    NoneBeforeJoin(NumberClose, v, PartClose, |v| - |PartClose|);
    assert NoTagStart(d, PartClose);
    NoneBeforePast(d, NumberClose + v, PartClose, |NumberClose| + |v| - |PartClose|);
    NoneBeforePast(NumberOpen, d + (NumberClose + v), PartClose, |d| + |NumberClose| + |v| - |PartClose|);
  }

  lemma RenderedPartIsFragment(n: nat, e: string)
    requires PlainEtag(e)
    ensures Fragment(RenderPart(n, e))
  {
    var f := RenderPart(n, e);
    var m := NumberOpen + (DecimalString(n) + (NumberClose + (EtagOpen + (e + (EtagClose + PartClose)))));
    assert f == PartOpen + m;
    RenderedBodyNoClose(DecimalString(n), e);
    forall j | |PartOpen| <= j < |f| - |PartClose| ensures !StartsWith(f[j..], PartClose) {
      assert f[j..] == m[j - |PartOpen|..];
    }
    assert f[|f| - |PartClose|..] == PartClose;
  }

  /** "<Part>" opens no "<PartNumber>": it differs at its sixth character and holds no other '<'. */
  lemma NumberAfterPartOpen(y: string)
    ensures PartNumberIn(PartOpen + y) == PartNumberIn(y)
  {
    var s := PartOpen + y;
    Mismatch(s, 0, NumberOpen, 5);
    assert s[0..] == s;
    assert s[1..] == "Part>" + y;
    PartNumberPast("Part>", y);
  }

  /** The part number of a rendered part: the first "<PartNumber>" follows "<Part>". */
  lemma NumberOfRendered(d: string, t: string)
    requires d != "" && AllDigits(d) && StartsWith(t, NumberClose)
    ensures PartNumberIn(PartOpen + (NumberOpen + (d + t))) == Some(d)
  {
    NumberAfterPartOpen(NumberOpen + (d + t));
    NumberCaptureOf(d, t);
    var s := NumberOpen + (d + t);
    assert StartsWith(s, NumberOpen) && s[|NumberOpen|..] == d + t;
  }

  /** Digits followed by the closing tag are captured whole. */
  lemma NumberCaptureOf(d: string, t: string)
    requires d != "" && AllDigits(d) && StartsWith(t, NumberClose)
    ensures NumberCapture(d + t) == Some(d)
  {
    assert t[0] == t[..|NumberClose|][0] == NumberClose[0];
    LeadingDigitsOf(d, t);
    assert (d + t)[|d|..] == t;
  }

  /** The tags before a rendered ETag, in which `<ETag>"` cannot start. */
  lemma TagsBeforeEtag()
    ensures NoTagStart(PartOpen, EtagOpen) && NoTagStart(NumberOpen, EtagOpen) && NoTagStart(NumberClose, EtagOpen)
  {
    assert forall j :: 0 <= j < |PartOpen| && PartOpen[j] == '<' ==> j == 0;
    assert forall j :: 0 <= j < |NumberOpen| && NumberOpen[j] == '<' ==> j == 0;
    assert forall j :: 0 <= j < |NumberClose| && NumberClose[j] == '<' ==> j == 0;
  }

  /** In `"</ETag></Part>` only the first character is a quote. */
  lemma QuoteOnlyFirst()
    ensures forall i :: 0 < i < |EtagClose + PartClose| ==> (EtagClose + PartClose)[i] != '"'
  {
    assert EtagClose + PartClose == "\"</ETag></Part>";
  }

  /** A greedy capture up to the last `"</ETag>` stops before the one that closes a rendered ETag. */
  lemma CaptureOfRendered(e: string)
    requires PlainEtag(e)
    ensures GreedyCapture(e + (EtagClose + PartClose), EtagClose, 1) == Some(e)
  {
    var c := EtagClose + PartClose;
    var t := e + c;
    assert '\n' !in c;
    LineLengthOf(t, "");
    assert t + "" == t;
    assert t[|e|..] == c;
    QuoteOnlyFirst();
    forall j | |e| < j <= |t| ensures !StartsWith(t[j..], EtagClose) {
      assert t[j..] == c[j - |e|..];
      if j < |t| {
        Mismatch(c, j - |e|, EtagClose, 0);
      }
    }
    GreedyCaptureIs(t, EtagClose, 1, |e|);
    assert t[..|e|] == e;
  }

  /** The ETag of a rendered part: the first `<ETag>"` is its own. */
  lemma EtagOfRendered(d: string, e: string)
    requires AllDigits(d) && PlainEtag(e)
    ensures EtagIn(PartOpen + (NumberOpen + (d + (NumberClose + (EtagOpen + (e + (EtagClose + PartClose))))))) == Some(e)
  {
    var w := EtagOpen + (e + (EtagClose + PartClose));
    TagsBeforeEtag();
    assert NoTagStart(d, EtagOpen);
    EtagPast(PartOpen, NumberOpen + (d + (NumberClose + w)));
    EtagPast(NumberOpen, d + (NumberClose + w));
    EtagPast(d, NumberClose + w);
    EtagPast(NumberClose, w);
    assert w[|EtagOpen|..] == e + (EtagClose + PartClose);
    CaptureOfRendered(e);
  }

  /** The entry read from a rendered part is its number and its ETag. */
  lemma EntryOfRenderedPart(n: nat, e: string)
    requires PlainEtag(e)
    ensures EntryOf(RenderPart(n, e)) == PartEntry(n, Some(e))
  {
    var d := DecimalString(n);
    NumberOfRendered(d, NumberClose + (EtagOpen + (e + (EtagClose + PartClose))));
    DigitsValueOfDecimal(n);
    EtagOfRendered(d, e);
  }

  /** The scan passes over a text in which no part can open. */
  lemma {:induction false} ScanPastPrefix(g: string, y: string)
    requires NoPartOpen(g)
    ensures ScanParts(g + y) == ScanParts(y)
    decreases |g|
  {
    if g == [] {
      assert g + y == y;
    } else {
      TagCannotStart(g, y, PartOpen);
      assert (g + y)[0..] == g + y;
      assert (g + y)[1..] == g[1..] + y;
      NoTagStartTail(g, PartOpen);
      ScanPastPrefix(g[1..], y);
    }
  }

  /** A text that opens no part scans to nothing. */
  lemma ScanNothing(g: string)
    requires NoPartOpen(g)
    ensures ScanParts(g) == []
  {
    ScanPastPrefix(g, "");
    assert g + "" == g;
  }

  /** Inside a fragment followed by anything, the first closing tag is the fragment's own. */
  lemma CloseOfFragment(f: string, rest: string)
    requires Fragment(f)
    ensures IndexOf(f + rest, PartClose, |PartOpen|) == Some(|f| - |PartClose|)
  {
    var t := f + rest;
    var e := |f| - |PartClose|;
    forall j | |PartOpen| <= j < e ensures !StartsWith(t[j..], PartClose) {
      assert t[j..][..|PartClose|] == f[j..][..|PartClose|];
    }
    assert t[e..][..|PartClose|] == f[|f| - |PartClose|..];
    IndexOfIs(t, PartClose, |PartOpen|, e);
  }

  /** A text that starts with a fragment scans to that fragment and the scan of what follows. */
  lemma ScanFragmentFirst(f: string, rest: string)
    requires Fragment(f)
    ensures ScanParts(f + rest) == [f] + ScanParts(rest)
  {
    CloseOfFragment(f, rest);
    StartsWithAppend(f, rest, PartOpen);
  }

  /** After a prefix that opens no part, the scan takes exactly the fragment that follows. */
  lemma ScanPastFragment(g: string, f: string, rest: string)
    requires NoPartOpen(g) && Fragment(f)
    ensures ScanParts(g + (f + rest)) == [f] + ScanParts(rest)
  {
    ScanPastPrefix(g, f + rest);
    ScanFragmentFirst(f, rest);
  }

  /** The scan of rendered parts followed by a text that opens none: exactly the rendered fragments. */
  lemma {:induction false} ScanRenderedParts(parts: seq<(nat, string)>, rest: string)
    requires forall k :: 0 <= k < |parts| ==> PlainEtag(parts[k].1)
    requires NoPartOpen(rest)
    ensures |ScanParts(RenderParts(parts) + rest)| == |parts|
    ensures forall k :: 0 <= k < |parts| ==>
      ScanParts(RenderParts(parts) + rest)[k] == RenderPart(parts[k].0, parts[k].1)
    decreases |parts|
  {
    if parts == [] {
      assert RenderParts(parts) + rest == rest;
      ScanNothing(rest);
    } else {
      ScanRenderedParts(parts[1..], rest);
      ScanRenderedStep(parts, rest);
    }
  }

  /** One more rendered part in front adds its fragment in front of the scan. */
  lemma ScanRenderedStep(parts: seq<(nat, string)>, rest: string)
    requires parts != [] && PlainEtag(parts[0].1)
    requires |ScanParts(RenderParts(parts[1..]) + rest)| == |parts| - 1
    requires forall k :: 0 <= k < |parts[1..]| ==>
      ScanParts(RenderParts(parts[1..]) + rest)[k] == RenderPart(parts[1..][k].0, parts[1..][k].1)
    ensures |ScanParts(RenderParts(parts) + rest)| == |parts|
    ensures forall k :: 0 <= k < |parts| ==>
      ScanParts(RenderParts(parts) + rest)[k] == RenderPart(parts[k].0, parts[k].1)
  {
    var f := RenderPart(parts[0].0, parts[0].1);
    var tail := RenderParts(parts[1..]) + rest;
    assert RenderParts(parts) + rest == f + tail;
    RenderedPartIsFragment(parts[0].0, parts[0].1);
    ScanFragmentFirst(f, tail);
    ShiftedParts(parts, f, ScanParts(tail));
  }

  lemma ShiftedParts(parts: seq<(nat, string)>, f: string, s': seq<string>)
    requires parts != [] && f == RenderPart(parts[0].0, parts[0].1) && |s'| == |parts| - 1
    requires forall k :: 0 <= k < |parts[1..]| ==> s'[k] == RenderPart(parts[1..][k].0, parts[1..][k].1)
    ensures forall k :: 0 <= k < |parts| ==> ([f] + s')[k] == RenderPart(parts[k].0, parts[k].1)
  {
    forall k | 0 < k < |parts| ensures ([f] + s')[k] == RenderPart(parts[k].0, parts[k].1) {
      assert parts[1..][k - 1] == parts[k];
    }
  }

  /** The tags around a manifest open no part. */
  lemma WrapperTags()
    ensures NoPartOpen(ManifestOpen) && NoPartOpen(ManifestClose)
  {
    assert forall j :: 0 <= j < |ManifestOpen| && ManifestOpen[j] == '<' ==> j == 0;
    assert forall j :: 0 <= j < |ManifestClose| && ManifestClose[j] == '<' ==> j == 0;
  }

  /** The opening tag of a manifest does not change its scan. */
  lemma ManifestScansBody(parts: seq<(nat, string)>)
    ensures ScanParts(RenderManifest(parts)) == ScanParts(RenderParts(parts) + ManifestClose)
  {
    WrapperTags();
    ScanPastPrefix(ManifestOpen, RenderParts(parts) + ManifestClose);
  }

  /**
   * The scanner reads a well-formed manifest back into its parts, in the
   * order they were sent: numbers as sent, ETags without their quotes.
   */
  lemma ManifestRoundTrip(parts: seq<(nat, string)>)
    requires forall k :: 0 <= k < |parts| ==> PlainEtag(parts[k].1)
    ensures |ManifestParts(RenderManifest(parts))| == |parts|
    ensures forall k :: 0 <= k < |parts| ==>
      ManifestParts(RenderManifest(parts))[k] == PartEntry(parts[k].0, Some(parts[k].1))
  {
    WrapperTags();
    ScanRenderedParts(parts, ManifestClose);
    ManifestScansBody(parts);
    forall k | 0 <= k < |parts|
      ensures EntryOf(RenderPart(parts[k].0, parts[k].1)) == PartEntry(parts[k].0, Some(parts[k].1))
    {
      EntryOfRenderedPart(parts[k].0, parts[k].1);
    }
  }
}
