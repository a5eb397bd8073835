/**
 * The Range support of do_GET (server.rb:146-168): which byte range a
 * `Range` header asks for, the Content-Range it is answered with, and the
 * bytes IO#read hands back. A loose form of byte-ranges (section 2.1 of
 * RFC 7233) and of Content-Range (section 4.2 of RFC 7233).
 */
module Ranges {
  import opened Wrappers
  import opened RubyText
  import opened Http
  import opened Requests

  const BytesUnit := "bytes="

  /** The captures of `/bytes=(\d*)-(\d*)/` when the match starts at the start of w. */
  function RangeStart(w: string): (r: Option<(string, string)>)
    ensures r.Some? ==> AllDigits(r.value.0) && AllDigits(r.value.1)
  {
    if !StartsWith(w, BytesUnit) then None
    else
      var first := LeadingDigits(w[|BytesUnit|..]);
      var k := |BytesUnit| + |first|;
      if k < |w| && w[k] == '-' then Some((first, LeadingDigits(w[k + 1..]))) else None
  }

  /** The captures when the match starts at i. */
  function RangeAt(v: string, i: nat): (r: Option<(string, string)>)
    requires i <= |v|
    ensures r.Some? ==> AllDigits(r.value.0) && AllDigits(r.value.1)
  {
    RangeStart(v[i..])
  }

  /** No match starts at any position from i up to (not including) k. */
  predicate NoRangeBetween(v: string, i: nat, k: nat)
    requires i <= k <= |v| + 1
  {
    forall j :: i <= j < k && j <= |v| ==> RangeAt(v, j).None?
  }

  /** With no match at i, "none from i" is "none from i + 1". */
  lemma NoRangeBetweenCons(v: string, i: nat, k: nat)
    requires i < k <= |v| + 1 && i < |v| && RangeAt(v, i).None?
    ensures NoRangeBetween(v, i, k) <==> NoRangeBetween(v, i + 1, k)
  {
  }

  /** The leftmost match at or after i. */
  function RangeFrom(v: string, i: nat): (r: Option<(string, string)>)
    requires i <= |v|
    ensures r.Some? ==> AllDigits(r.value.0) && AllDigits(r.value.1)
    decreases |v| - i
  {
    if RangeAt(v, i).Some? then RangeAt(v, i)
    else if i == |v| then None
    else RangeFrom(v, i + 1)
  }

  /** RangeFrom is the leftmost match: some k matches with none before it, and None iff no position matches. */
  lemma {:induction false} RangeLeftmost(v: string, i: nat)
    requires i <= |v|
    ensures RangeFrom(v, i).Some? ==>
      exists k :: i <= k <= |v| && RangeAt(v, k) == RangeFrom(v, i) && NoRangeBetween(v, i, k)
    ensures RangeFrom(v, i).None? <==> NoRangeBetween(v, i, |v| + 1)
    decreases |v| - i
  {
    if RangeAt(v, i).Some? {
      assert NoRangeBetween(v, i, i);
    } else if i == |v| {
      assert NoRangeBetween(v, i, |v| + 1);
    } else {
      RangeLeftmost(v, i + 1);
      NoRangeBetweenCons(v, i, |v| + 1);
      if RangeFrom(v, i).Some? {
        var k :| i + 1 <= k <= |v| && RangeAt(v, k) == RangeFrom(v, i + 1) && NoRangeBetween(v, i + 1, k);
        NoRangeBetweenCons(v, i, k);
      }
    }
  }

  /** `range =~ /bytes=(\d*)-(\d*)/`: the two digit runs, or None when the header does not match. */
  function ParseRange(v: string): (r: Option<(string, string)>)
    ensures r.Some? ==> AllDigits(r.value.0) && AllDigits(r.value.1)
    ensures RangeAt(v, 0).Some? ==> r == RangeAt(v, 0)
  {
    RangeFrom(v, 0)
  }

  /** The header's match is the leftmost one: none matches before it, and None iff no position matches. */
  lemma ParseRangeLeftmost(v: string)
    ensures ParseRange(v).Some? ==>
      exists k :: 0 <= k <= |v| && RangeAt(v, k) == ParseRange(v) && NoRangeBetween(v, 0, k)
    ensures ParseRange(v).None? <==> NoRangeBetween(v, 0, |v| + 1)
  {
    RangeLeftmost(v, 0);
  }

  /** "bytes=a-b" with digit runs a and b, not followed by a digit, matches at i. */
  lemma RangeAtDigits(v: string, i: nat, a: string, b: string, rest: string)
    requires i <= |v| && v[i..] == BytesUnit + a + "-" + b + rest
    requires AllDigits(a) && AllDigits(b) && (rest == [] || !IsDigit(rest[0]))
    ensures RangeAt(v, i) == Some((a, b))
  {
    RangeStartDigits(v[i..], a, b, rest);
  }

  lemma RangeStartDigits(w: string, a: string, b: string, rest: string)
    requires w == BytesUnit + a + "-" + b + rest
    requires AllDigits(a) && AllDigits(b) && (rest == [] || !IsDigit(rest[0]))
    ensures RangeStart(w) == Some((a, b))
  {
    assert w[..|BytesUnit|] == BytesUnit;
    assert w[|BytesUnit|..] == a + ("-" + b + rest);
    LeadingDigitsOf(a, "-" + b + rest);
    assert w[|BytesUnit| + |a|] == '-';
    assert w[|BytesUnit| + |a| + 1..] == b + rest;
    LeadingDigitsOf(b, rest);
  }

  /** The leftmost match wins, even when it does not start the header. */
  lemma LeftmostRange()
    ensures ParseRange("xbytes=1-2,bytes=3-4") == Some(("1", "2"))
  {
    var tail := BytesUnit + "1" + "-" + "2" + ",bytes=3-4";
    var v := "x" + tail;
    assert v == "xbytes=1-2,bytes=3-4";
    assert RangeAt(v, 0).None? by {
      assert v[0..][..|BytesUnit|][0] == 'x';
    }
    assert v[1..] == tail;
    RangeAtDigits(v, 1, "1", "2", ",bytes=3-4");
  }

  /** What the servlet does with a matched range: offset, last byte, read length and Content-Range. */
  datatype RangePlan = RangePlan(start: nat, finish: int, toRead: int, contentRange: string)

  /** The Content-Range value `"bytes #{start}-#{finish_str}/#{content_length}"`. */
  function ContentRange(start: nat, finish: int, length: nat): string {
    "bytes " + IntString(start) + "-" + IntString(finish) + "/" + IntString(length)
  }

  function Planned(start: nat, finish: int, length: nat): (p: RangePlan)
    ensures p.toRead == p.finish - p.start + 1
  {
    RangePlan(start, finish, finish - start + 1, ContentRange(start, finish, length))
  }

  /**
   * The plan as server.rb:150-166 computes it: `$2.to_i` is 0 both for an
   * absent last byte and for an explicit "0", and both mean "to the end".
   */
  function PlanAsWritten(first: string, last: string, length: nat): (p: RangePlan)
    requires AllDigits(first) && AllDigits(last)
    ensures p.start == DigitsValue(first)
    ensures p.finish == if DigitsValue(last) == 0 then length - 1 else DigitsValue(last)
    ensures p.toRead == p.finish - p.start + 1
  {
    var finish := if DigitsValue(last) == 0 then length - 1 else DigitsValue(last);
    Planned(DigitsValue(first), finish, length)
  }

  /** The evidently intended plan: only an absent last byte means "to the end". */
  function Plan(first: string, last: string, length: nat): (p: RangePlan)
    requires AllDigits(first) && AllDigits(last)
    ensures p.start == DigitsValue(first)
    ensures last == "" ==> p.finish == length - 1
    ensures last != "" ==> p.finish == DigitsValue(last)
    ensures p.toRead == p.finish - p.start + 1
    ensures DigitsValue(last) != 0 || last == "" ==> p == PlanAsWritten(first, last, length)
  {
    var finish := if last == "" then length - 1 else DigitsValue(last);
    Planned(DigitsValue(first), finish, length)
  }

  /**
   * `io.pos = pos; io.read(length)` on a file holding content: a negative
   * length raises, a zero length gives "", a read at or past the end gives
   * nil, anything else the bytes up to the length or the end of the file.
   */
  function IoRead(content: seq<byte>, pos: nat, length: int): (r: Result<Option<seq<byte>>, Fault>)
    ensures r.Failure? <==> length < 0
    ensures r.Failure? ==> r.error == NegativeRead
    ensures length == 0 ==> r == Success(Some([]))
    ensures length > 0 && pos >= |content| ==> r == Success(None)
    ensures length > 0 && pos < |content| ==> (r.Success? && r.value.Some? &&
      |r.value.value| == (if pos + length <= |content| then length else |content| - pos) &&
      r.value.value == content[pos..pos + |r.value.value|])
  {
    if length < 0 then Failure(NegativeRead)
    else if length == 0 then Success(Some([]))
    else if pos >= |content| then Success(None)
    else if pos + length <= |content| then Success(Some(content[pos..pos + length]))
    else Success(Some(content[pos..]))
  }

  // ---------------------------------------------------------------------------
  // What a client gets back
  // ---------------------------------------------------------------------------

  lemma RangeOfDigits(a: string, b: string)
    requires AllDigits(a) && AllDigits(b)
    ensures ParseRange(BytesUnit + a + "-" + b) == Some((a, b))
  {
    var v := BytesUnit + a + "-" + b;
    assert v[0..] == v == BytesUnit + a + "-" + b + "";
    RangeStartDigits(v, a, b, "");
  }

  /**
   * "bytes=a-b" with a <= b inside the object and b > 0: exactly bytes a..b,
   * announced as "bytes a-b/size". The corrected plan agrees; b = 0 is the
   * case where the two differ (FirstByteAsWritten).
   */
  lemma ClosedRangeServed(content: seq<byte>, a: nat, b: nat)
    requires a <= b < |content| && 0 < b
    ensures ParseRange(BytesUnit + DecimalString(a) + "-" + DecimalString(b)) ==
      Some((DecimalString(a), DecimalString(b)))
    ensures var p := PlanAsWritten(DecimalString(a), DecimalString(b), |content|);
      p.contentRange == "bytes " + DecimalString(a) + "-" + DecimalString(b) + "/" + DecimalString(|content|) &&
      IoRead(content, p.start, p.toRead) == Success(Some(content[a..b + 1]))
    ensures Plan(DecimalString(a), DecimalString(b), |content|) ==
      PlanAsWritten(DecimalString(a), DecimalString(b), |content|)
  {
    RangeOfDigits(DecimalString(a), DecimalString(b));
    ClosedRangePlan(content, a, b);
  }

  lemma ClosedRangePlan(content: seq<byte>, a: nat, b: nat)
    requires a <= b < |content| && 0 < b
    ensures var p := PlanAsWritten(DecimalString(a), DecimalString(b), |content|);
      p.contentRange == "bytes " + DecimalString(a) + "-" + DecimalString(b) + "/" + DecimalString(|content|) &&
      IoRead(content, p.start, p.toRead) == Success(Some(content[a..b + 1]))
    ensures Plan(DecimalString(a), DecimalString(b), |content|) ==
      PlanAsWritten(DecimalString(a), DecimalString(b), |content|)
  {
    DigitsValueOfDecimal(a);
    DigitsValueOfDecimal(b);
    assert PlanAsWritten(DecimalString(a), DecimalString(b), |content|) == Planned(a, b, |content|);
    assert Plan(DecimalString(a), DecimalString(b), |content|) == Planned(a, b, |content|);
    PlannedRead(content, a, b);
  }

  /** "bytes=a-" inside the object: everything from a, announced as "bytes a-(size-1)/size". */
  lemma OpenRangeServed(content: seq<byte>, a: nat)
    requires a < |content|
    ensures ParseRange(BytesUnit + DecimalString(a) + "-") == Some((DecimalString(a), ""))
    ensures var p := PlanAsWritten(DecimalString(a), "", |content|);
      p.contentRange == "bytes " + DecimalString(a) + "-" + DecimalString(|content| - 1) + "/" + DecimalString(|content|) &&
      IoRead(content, p.start, p.toRead) == Success(Some(content[a..]))
    ensures Plan(DecimalString(a), "", |content|) == PlanAsWritten(DecimalString(a), "", |content|)
  {
    RangeOfDigits(DecimalString(a), "");
    assert BytesUnit + DecimalString(a) + "-" + "" == BytesUnit + DecimalString(a) + "-";
    OpenRangePlan(content, a);
  }

  lemma OpenRangePlan(content: seq<byte>, a: nat)
    requires a < |content|
    ensures var p := PlanAsWritten(DecimalString(a), "", |content|);
      p.contentRange == "bytes " + DecimalString(a) + "-" + DecimalString(|content| - 1) + "/" + DecimalString(|content|) &&
      IoRead(content, p.start, p.toRead) == Success(Some(content[a..]))
  {
    DigitsValueOfDecimal(a);
    assert content[a..|content|] == content[a..];
  }

  /**
   * As written, an explicit last byte 0 is read as an open end: "bytes=a-0"
   * inside the object sends everything from a, where the corrected plan ends at 0.
   */
  lemma ZeroEndReadsToEnd(content: seq<byte>, a: nat)
    requires a < |content|
    ensures ParseRange(BytesUnit + DecimalString(a) + "-0") == Some((DecimalString(a), "0"))
    ensures var p := PlanAsWritten(DecimalString(a), "0", |content|);
      p.contentRange == "bytes " + DecimalString(a) + "-" + DecimalString(|content| - 1) + "/" + DecimalString(|content|) &&
      IoRead(content, p.start, p.toRead) == Success(Some(content[a..]))
    ensures Plan(DecimalString(a), "0", |content|).finish == 0
  {
    ZeroEndParsed(a);
    assert DigitsValue("0") == 0 by {
      assert "0"[..0] == "";
    }
    assert PlanAsWritten(DecimalString(a), "0", |content|) == PlanAsWritten(DecimalString(a), "", |content|);
    OpenRangePlan(content, a);
  }

  lemma ZeroEndParsed(a: nat)
    ensures ParseRange(BytesUnit + DecimalString(a) + "-0") == Some((DecimalString(a), "0"))
  {
    RangeOfDigits(DecimalString(a), "0");
    assert BytesUnit + DecimalString(a) + "-" + "0" == BytesUnit + DecimalString(a) + "-0";
  }

  /** A last byte past the end of the object is announced as asked, and the read stops at the end. */
  lemma RangePastEnd(content: seq<byte>, a: nat, b: nat)
    requires a < |content| <= b
    ensures var p := PlanAsWritten(DecimalString(a), DecimalString(b), |content|);
      p.finish == b && IoRead(content, p.start, p.toRead) == Success(Some(content[a..]))
  {
    DigitsValueOfDecimal(a);
    DigitsValueOfDecimal(b);
  }

  /** A first byte after a nonzero last one reads a negative length, and IO#read raises. */
  lemma BackwardRangeRaises(content: seq<byte>, a: nat, b: nat)
    requires b + 1 < a && 0 < b
    ensures var p := PlanAsWritten(DecimalString(a), DecimalString(b), |content|);
      IoRead(content, p.start, p.toRead) == Failure(NegativeRead)
  {
    DigitsValueOfDecimal(a);
    DigitsValueOfDecimal(b);
  }

  /** On an empty object "bytes=0-" announces "bytes 0--1/0" and sends nothing. */
  lemma EmptyObjectRange()
    ensures var p := PlanAsWritten("0", "", 0);
      p.contentRange == "bytes 0--1/0" && IoRead([], p.start, p.toRead) == Success(Some([]))
  {
    assert DigitsValue("0") == 0 by {
      assert "0"[..0] == "";
    }
    assert DecimalString(0) == "0";
    assert DecimalString(1) == "1";
  }

  /**
   * As written, "bytes=0-0" is read as "bytes=0-": a client asking for the
   * first byte of a two-byte object gets both.
   */
  lemma FirstByteAsWritten(content: seq<byte>)
    requires |content| >= 2
    ensures var p := PlanAsWritten("0", "0", |content|);
      IoRead(content, p.start, p.toRead) == Success(Some(content))
    ensures var p := Plan("0", "0", |content|);
      IoRead(content, p.start, p.toRead) == Success(Some(content[..1]))
  {
    assert DigitsValue("0") == 0 by {
      assert "0"[..0] == "";
    }
    assert content[0..|content|] == content;
  }

  /** The corrected plan serves bytes a..b for every closed range inside the object, b = 0 included. */
  lemma ClosedRangeIntended(content: seq<byte>, a: nat, b: nat)
    requires a <= b < |content|
    ensures var p := Plan(DecimalString(a), DecimalString(b), |content|);
      p.contentRange == "bytes " + DecimalString(a) + "-" + DecimalString(b) + "/" + DecimalString(|content|) &&
      IoRead(content, p.start, p.toRead) == Success(Some(content[a..b + 1]))
  {
    DigitsValueOfDecimal(a);
    DigitsValueOfDecimal(b);
    assert Plan(DecimalString(a), DecimalString(b), |content|) == Planned(a, b, |content|);
    PlannedRead(content, a, b);
  }

  /** The plan for bytes a..b inside the object announces them and reads exactly them. */
  lemma PlannedRead(content: seq<byte>, a: nat, b: nat)
    requires a <= b < |content|
    ensures var p := Planned(a, b, |content|);
      p.contentRange == "bytes " + DecimalString(a) + "-" + DecimalString(b) + "/" + DecimalString(|content|) &&
      IoRead(content, p.start, p.toRead) == Success(Some(content[a..b + 1]))
  {
    var p := Planned(a, b, |content|);
    assert p.start == a && p.toRead == b + 1 - a;
    assert p.contentRange == "bytes " + IntString(a) + "-" + IntString(b) + "/" + IntString(|content|);
    assert IoRead(content, a, b + 1 - a) == Success(Some(content[a..b + 1])) by {
      assert a + (b + 1 - a) == b + 1;
    }
  }
}
