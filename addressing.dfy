/**
 * Path-style versus virtual-host-style addressing: which bucket, if any, the
 * Host header names (server.rb:58-61 and 477-490).
 */
module Addressing {
  import opened Wrappers
  import opened RubyText

  /** @root_hostnames: the configured hostname first, then three well-known names. */
  function RootHostnames(hostname: string): seq<string> {
    [hostname, "localhost", "s3.amazonaws.com", "s3.localhost"]
  }

  /**
   * `host_header.split(':')[0]`: the host without its port; nil when the
   * header has no text before its first colon that split keeps.
   */
  function HostName(hostHeader: string): (r: Option<string>)
    ensures r.Some? ==> ':' !in r.value
    ensures r.Some? ==> StartsWith(hostHeader, r.value)
    ensures r.Some? ==> |r.value| == |hostHeader| || hostHeader[|r.value|] == ':'
    ensures r.None? <==> forall i :: 0 <= i < |hostHeader| ==> hostHeader[i] == ':'
    ensures ':' !in hostHeader && hostHeader != "" ==> r == Some(hostHeader)
  {
    var f := Split(hostHeader, ':');
    SplitFirst(hostHeader, ':');
    SplitEmptyIff(hostHeader, ':');
    TrimEndEmptyIff(hostHeader, ':');
    if |f| == 0 then None else Some(f[0])
  }

  /** The first field split keeps is the text before the first separator. */
  lemma SplitFirst(s: string, c: char)
    ensures Split(s, c) != [] ==> StartsWith(s, Split(s, c)[0])
    ensures Split(s, c) != [] ==> |Split(s, c)[0]| == |s| || s[|Split(s, c)[0]|] == c
    ensures c !in s && s != "" ==> Split(s, c) == [s]
  {
    FieldsFirstIsPrefix(s, c);
    if c !in s {
      FieldsSingle(s, c);
    }
  }

  lemma {:induction false} FieldsFirstIsPrefix(s: string, c: char)
    ensures StartsWith(s, Fields(s, c)[0])
    ensures |Fields(s, c)[0]| == |s| || s[|Fields(s, c)[0]|] == c
    decreases |s|
  {
    if s != [] && s[0] != c {
      FieldsFirstIsPrefix(s[1..], c);
    }
  }

  /** host is some p, a dot, and one of the root hostnames. */
  predicate Decomposes(host: string, roots: seq<string>, p: string) {
    |p| < |host| && host[..|p|] == p && host[|p|] == '.' && host[|p| + 1..] in roots
  }

  /** The same, as a position: the dot at n is followed by exactly a root hostname. */
  predicate SplitsAt(host: string, roots: seq<string>, n: nat) {
    n < |host| && host[n] == '.' && host[n + 1..] in roots
  }

  /** The first n' >= n at which host splits, scanning left to right. */
  function FirstSplitFrom(host: string, roots: seq<string>, n: nat): (r: Option<nat>)
    requires n <= |host|
    ensures r.Some? ==> n <= r.value && SplitsAt(host, roots, r.value)
    ensures r.Some? ==> forall m :: n <= m < r.value ==> !SplitsAt(host, roots, m)
    ensures r.None? ==> forall m :: n <= m ==> !SplitsAt(host, roots, m)
    decreases |host| - n
  {
    if n == |host| then None
    else if SplitsAt(host, roots, n) then Some(n)
    else FirstSplitFrom(host, roots, n + 1)
  }

  /**
   * The capture of `^(.*?)\.(?:root1|root2|...)$` on host: the non-greedy group
   * makes it the shortest prefix p with host == p + "." + r for a root r.
   */
  function VirtualHostBucket(host: string, roots: seq<string>): (r: Option<string>)
    ensures r.Some? ==> Decomposes(host, roots, r.value)
    ensures r.Some? ==> forall p :: Decomposes(host, roots, p) ==> |r.value| <= |p|
    ensures r.None? ==> forall p :: !Decomposes(host, roots, p)
  {
    match FirstSplitFrom(host, roots, 0)
    case Some(n) =>
      assert forall p :: Decomposes(host, roots, p) ==> SplitsAt(host, roots, |p|);
      Some(host[..n])
    case None =>
      assert forall p :: Decomposes(host, roots, p) ==> SplitsAt(host, roots, |p|);
      None
  }

  /**
   * The bucket the Host header names, or None for path-style addressing: a
   * root hostname or an IP literal is never read as a bucket name.
   */
  function ResolveHost(host: Option<string>, roots: seq<string>, isIpLiteral: string -> bool): (bucket: Option<string>)
    ensures host.None? ==> bucket.None?
    ensures host.Some? && (host.value in roots || isIpLiteral(host.value)) ==> bucket.None?
    ensures host.Some? && host.value !in roots && !isIpLiteral(host.value) ==>
      (bucket.Some? <==> exists p :: Decomposes(host.value, roots, p))
    ensures bucket.Some? ==> host.Some? && Decomposes(host.value, roots, bucket.value)
    ensures bucket.Some? ==> forall p :: Decomposes(host.value, roots, p) ==> |bucket.value| <= |p|
  {
    match host
    case None => None
    case Some(h) =>
      if h !in roots && !isIpLiteral(h) then VirtualHostBucket(h, roots) else None
  }

  /** When root hostnames overlap, the shortest bucket wins: "photos.s3.localhost" names "photos". */
  lemma ShortestBucketWins(hostname: string, isIpLiteral: string -> bool)
    requires hostname == "s3.amazonaws.com"
    requires !isIpLiteral("photos.s3.localhost")
    ensures ResolveHost(Some("photos.s3.localhost"), RootHostnames(hostname), isIpLiteral) == Some("photos")
  {
    var host := "photos.s3.localhost";
    var roots := RootHostnames(hostname);
    assert host[7..] == "s3.localhost";
    assert forall m :: 0 <= m < 6 ==> host[m] != '.';
    FirstSplitIs(host, roots, 6);
    assert host[..6] == "photos";
    assert |host| !in {|hostname|, |"localhost"|, |"s3.localhost"|};
  }

  /** The first split is at n when host splits there and nowhere before. */
  lemma FirstSplitIs(host: string, roots: seq<string>, n: nat)
    requires SplitsAt(host, roots, n)
    requires forall m :: 0 <= m < n ==> !SplitsAt(host, roots, m)
    ensures FirstSplitFrom(host, roots, 0) == Some(n)
  {
  }
}
