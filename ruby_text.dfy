/**
 * The handful of Ruby String operations the servlet relies on, with the
 * exact edge cases of Ruby's core library: String#split with a
 * one-character separator, Array#join, String#to_i on a run of digits,
 * Integer#to_s, CGI.unescape and String#gsub with a literal pattern.
 */
module RubyText {
  import opened Wrappers

  // ---------------------------------------------------------------------------
  // Prefixes and substrings
  // ---------------------------------------------------------------------------

  predicate StartsWith(s: string, p: string) {
    |p| <= |s| && s[..|p|] == p
  }

  /** True when p occurs somewhere in s (Ruby's `s =~ /p/` for a literal p). */
  predicate Contains(s: string, p: string)
    decreases |s|
  {
    StartsWith(s, p) || (s != [] && Contains(s[1..], p))
  }

  lemma {:induction false} ContainsAt(s: string, p: string, i: nat)
    requires i + |p| <= |s| && s[i..i + |p|] == p
    ensures Contains(s, p)
    decreases i
  {
    if i > 0 {
      assert s[1..][i - 1..i - 1 + |p|] == s[i..i + |p|];
      ContainsAt(s[1..], p, i - 1);
    } else {
      assert s[..|p|] == p;
    }
  }

  /** Number of characters before the first line feed (the reach of a regex `.`). */
  function LineLength(t: string): (n: nat)
    ensures n <= |t|
    ensures forall i :: 0 <= i < n ==> t[i] != '\n'
    ensures n < |t| ==> t[n] == '\n'
    decreases |t|
  {
    if t == [] || t[0] == '\n' then 0 else 1 + LineLength(t[1..])
  }

  /**
   * The largest j with lo <= j <= k and `close` starting at t[j..]: how a
   * greedy `(.*)` or `(.+)` followed by a literal backtracks from the end of
   * the line.
   */
  function LastCloseAt(t: string, close: string, lo: nat, k: nat): (r: Option<nat>)
    requires k <= |t|
    ensures r.Some? ==> lo <= r.value <= k && StartsWith(t[r.value..], close)
    ensures r.Some? ==> forall j :: r.value < j <= k ==> !StartsWith(t[j..], close)
    ensures r.None? ==> forall j :: lo <= j <= k ==> !StartsWith(t[j..], close)
    decreases k
  {
    if k < lo then None
    else if StartsWith(t[k..], close) then Some(k)
    else if k == 0 then None
    else LastCloseAt(t, close, lo, k - 1)
  }

  /**
   * The capture of a greedy `(.{lo,})` immediately followed by the literal
   * `close`, matched at the start of t: the longest run of at least lo
   * characters on the first line of t that `close` follows.
   */
  function GreedyCapture(t: string, close: string, lo: nat): (r: Option<string>)
    requires '\n' !in close
    ensures r.Some? ==> lo <= |r.value| <= LineLength(t) && r.value == t[..|r.value|]
    ensures r.Some? ==> StartsWith(t[|r.value|..], close)
    ensures r.Some? ==> forall j :: |r.value| < j <= LineLength(t) ==> !StartsWith(t[j..], close)
    ensures r.None? ==> forall j :: lo <= j <= LineLength(t) ==> !StartsWith(t[j..], close)
  {
    match LastCloseAt(t, close, lo, LineLength(t))
    case Some(j) => Some(t[..j])
    case None => None
  }

  /** The capture is the one at m when m is the last place on the first line that close follows. */
  lemma GreedyCaptureIs(t: string, close: string, lo: nat, m: nat)
    requires '\n' !in close && lo <= m <= LineLength(t) && StartsWith(t[m..], close)
    requires forall j :: m < j <= LineLength(t) ==> !StartsWith(t[j..], close)
    ensures GreedyCapture(t, close, lo) == Some(t[..m])
  {
  }

  /** A line of text followed by a line feed or by nothing is exactly as long as it is. */
  lemma {:induction false} LineLengthOf(a: string, rest: string)
    requires '\n' !in a && (rest == "" || rest[0] == '\n')
    ensures LineLength(a + rest) == |a|
    decreases |a|
  {
    if a == [] {
      assert a + rest == rest;
    } else {
      assert (a + rest)[1..] == a[1..] + rest;
      LineLengthOf(a[1..], rest);
    }
  }

  /** One differing character keeps p from starting at j. */
  lemma Mismatch(s: string, j: nat, p: string, i: nat)
    requires i < |p| && j + i < |s| && s[j + i] != p[i]
    ensures !StartsWith(s[j..], p)
  {
    if |p| <= |s| - j {
      assert s[j..][..|p|][i] == s[j + i];
    }
  }

  lemma StartsWithAppend(a: string, b: string, p: string)
    requires StartsWith(a, p)
    ensures StartsWith(a + b, p)
  {
    assert (a + b)[..|p|] == a[..|p|];
  }

  /**
   * In g the first character of p is never followed by its second, so no
   * occurrence of p starts inside g, whatever text comes after g.
   */
  predicate NoTagStart(g: string, p: string)
    requires |p| >= 2
  {
    forall j :: 0 <= j < |g| && g[j] == p[0] ==> j + 1 < |g| && g[j + 1] != p[1]
  }

  lemma TagCannotStart(g: string, y: string, p: string)
    requires |p| >= 2 && NoTagStart(g, p)
    ensures forall j :: 0 <= j < |g| ==> !StartsWith((g + y)[j..], p)
  {
    forall j | 0 <= j < |g| ensures !StartsWith((g + y)[j..], p) {
      if g[j] == p[0] {
        Mismatch(g + y, j, p, 1);
      } else {
        Mismatch(g + y, j, p, 0);
      }
    }
  }

  lemma NoTagStartTail(g: string, p: string)
    requires |p| >= 2 && g != [] && NoTagStart(g, p)
    ensures NoTagStart(g[1..], p)
  {
    forall j | 0 <= j < |g| - 1 && g[1..][j] == p[0] ensures j + 1 < |g| - 1 && g[1..][j + 1] != p[1] {
      assert g[1..][j] == g[j + 1];
    }
  }

  lemma NoTagStartConcat(a: string, b: string, p: string)
    requires |p| >= 2 && NoTagStart(a, p) && NoTagStart(b, p)
    ensures NoTagStart(a + b, p)
  {
  }

  // ---------------------------------------------------------------------------
  // String#split and Array#join
  // ---------------------------------------------------------------------------

  /** Every field of s between occurrences of c, empty ones included. */
  function Fields(s: string, c: char): (r: seq<string>)
    ensures |r| >= 1
    ensures forall i :: 0 <= i < |r| ==> c !in r[i]
    decreases |s|
  {
    if s == [] then [""]
    else if s[0] == c then [""] + Fields(s[1..], c)
    else
      var t := Fields(s[1..], c);
      [[s[0]] + t[0]] + t[1..]
  }

  /** Removes the empty strings at the end of xs. */
  function DropTrailingEmpty(xs: seq<string>): (r: seq<string>)
    ensures |r| <= |xs| && r == xs[..|r|]
    ensures r != [] ==> r[|r| - 1] != ""
    ensures forall i :: |r| <= i < |xs| ==> xs[i] == ""
    decreases |xs|
  {
    if xs == [] then []
    else if xs[|xs| - 1] == "" then DropTrailingEmpty(xs[..|xs| - 1])
    else xs
  }

  /**
   * Ruby's `s.split(c)`: leading and interior empty fields are kept, trailing
   * empty fields are dropped, so "" and a string made only of c give [].
   */
  function Split(s: string, c: char): (r: seq<string>)
    ensures forall i :: 0 <= i < |r| ==> c !in r[i]
    ensures r != [] ==> r[|r| - 1] != ""
    ensures |r| <= |Fields(s, c)|
  {
    DropTrailingEmpty(Fields(s, c))
  }

  /** Ruby's `xs.join(sep)`. */
  function Join(xs: seq<string>, sep: string): (r: string)
    decreases |xs|
  {
    if |xs| == 0 then ""
    else if |xs| == 1 then xs[0]
    else xs[0] + sep + Join(xs[1..], sep)
  }

  /** s without the run of c characters at its end. */
  function TrimEnd(s: string, c: char): (r: string)
    ensures |r| <= |s| && r == s[..|r|]
    ensures r == [] || r[|r| - 1] != c
    ensures forall i :: |r| <= i < |s| ==> s[i] == c
    decreases |s|
  {
    if s != [] && s[|s| - 1] == c then TrimEnd(s[..|s| - 1], c) else s
  }

  /** Trimming leaves nothing exactly when every character is c. */
  lemma TrimEndEmptyIff(s: string, c: char)
    ensures TrimEnd(s, c) == "" <==> forall i :: 0 <= i < |s| ==> s[i] == c
  {
    var r := TrimEnd(s, c);
    if r != [] {
      assert r[|r| - 1] == s[|r| - 1];
    }
  }

  lemma {:induction false} JoinFields(s: string, c: char)
    ensures Join(Fields(s, c), [c]) == s
    decreases |s|
  {
    if s == [] {
    } else if s[0] == c {
      JoinFields(s[1..], c);
      assert Fields(s, c) == [""] + Fields(s[1..], c);
      assert ([""] + Fields(s[1..], c))[1..] == Fields(s[1..], c);
      assert s == [c] + s[1..];
    } else {
      var t := Fields(s[1..], c);
      JoinFields(s[1..], c);
      var f := [[s[0]] + t[0]] + t[1..];
      assert f[1..] == t[1..];
      if |t| == 1 {
        assert Join(t, [c]) == t[0];
      } else {
        assert Join(t, [c]) == t[0] + [c] + Join(t[1..], [c]);
      }
      assert s == [s[0]] + s[1..];
    }
  }

  /** Splitting a string at a first separator: the field before it comes first. */
  lemma {:induction false} FieldsCons(a: string, b: string, c: char)
    requires c !in a
    ensures Fields(a + [c] + b, c) == [a] + Fields(b, c)
    decreases |a|
  {
    if a == [] {
      assert a + [c] + b == [c] + b;
      assert ([c] + b)[1..] == b;
    } else {
      FieldsCons(a[1..], b, c);
      assert (a + [c] + b)[1..] == a[1..] + [c] + b;
      assert [a[0]] + a[1..] == a;
    }
  }

  /** A string without the separator is its own one field. */
  lemma {:induction false} FieldsSingle(a: string, c: char)
    requires c !in a
    ensures Fields(a, c) == [a]
    decreases |a|
  {
    if a != [] {
      FieldsSingle(a[1..], c);
      assert [a[0]] + a[1..] == a;
    }
  }

  lemma {:induction false} FieldsAppendSep(t: string, c: char)
    ensures Fields(t + [c], c) == Fields(t, c) + [""]
    decreases |t|
  {
    if t == [] {
      assert Fields([c], c) == [""] + Fields([], c);
    } else {
      FieldsAppendSep(t[1..], c);
      assert (t + [c])[1..] == t[1..] + [c];
      var u := Fields(t[1..], c);
      if t[0] != c {
        assert (u + [""])[0] == u[0];
        assert (u + [""])[1..] == u[1..] + [""];
      }
    }
  }

  lemma {:induction false} DropTrailingEmptyCons(a: string, ys: seq<string>)
    ensures DropTrailingEmpty([a] + ys) ==
      (if DropTrailingEmpty(ys) == [] && a == "" then [] else [a] + DropTrailingEmpty(ys))
    decreases |ys|
  {
    var xs := [a] + ys;
    if ys == [] {
      assert xs == [a];
      if a == "" {
        assert xs[..0] == [];
      }
    } else if ys[|ys| - 1] == "" {
      assert xs[..|xs| - 1] == [a] + ys[..|ys| - 1];
      DropTrailingEmptyCons(a, ys[..|ys| - 1]);
    }
  }

  /** Split of a first field, a separator and the rest; used for paths "/bucket/key". */
  lemma SplitCons(a: string, b: string, c: char)
    requires c !in a
    ensures Split(a + [c] + b, c) ==
      (if Split(b, c) == [] && a == "" then [] else [a] + Split(b, c))
  {
    FieldsCons(a, b, c);
    DropTrailingEmptyCons(a, Fields(b, c));
  }

  /** With no trailing separator nothing is dropped: split is the full field list. */
  lemma {:induction false} SplitNoTrailing(s: string, c: char)
    requires s != [] && s[|s| - 1] != c
    ensures Split(s, c) == Fields(s, c)
    ensures Split(s, c) != []
    decreases |s|
  {
    var f := Fields(s, c);
    FieldsLastNonEmpty(s, c);
  }

  lemma {:induction false} FieldsLastNonEmpty(s: string, c: char)
    requires s != [] && s[|s| - 1] != c
    ensures Fields(s, c)[|Fields(s, c)| - 1] != ""
    decreases |s|
  {
    if |s| == 1 {
      FieldsSingle(s, c);
    } else if s[0] == c {
      FieldsLastNonEmpty(s[1..], c);
    } else {
      FieldsLastNonEmpty(s[1..], c);
      var t := Fields(s[1..], c);
      if |t| > 1 {
        assert ([[s[0]] + t[0]] + t[1..])[|t| - 1] == t[|t| - 1];
      }
    }
  }

  lemma {:induction false} SplitTrimEnd(s: string, c: char)
    ensures Split(s, c) == Split(TrimEnd(s, c), c)
    decreases |s|
  {
    if s != [] && s[|s| - 1] == c {
      var t := s[..|s| - 1];
      assert s == t + [c];
      FieldsAppendSep(t, c);
      assert (Fields(t, c) + [""])[..|Fields(t, c)|] == Fields(t, c);
      SplitTrimEnd(t, c);
    }
  }

  /**
   * Joining what split returns rebuilds the string up to its trailing
   * separators: `s.split(c).join(c)` is s with the run of c at its end removed.
   */
  lemma JoinSplit(s: string, c: char)
    ensures Join(Split(s, c), [c]) == TrimEnd(s, c)
  {
    SplitTrimEnd(s, c);
    var t := TrimEnd(s, c);
    if t == [] {
      assert Fields(t, c) == [""];
    } else {
      SplitNoTrailing(t, c);
      JoinFields(t, c);
    }
  }

  /** Corollary for the keys the servlet rebuilds: no trailing separator, nothing lost. */
  lemma JoinSplitExact(s: string, c: char)
    requires s != [] && s[|s| - 1] != c
    ensures Split(s, c) != [] && Join(Split(s, c), [c]) == s
  {
    SplitNoTrailing(s, c);
    JoinFields(s, c);
  }

  /** split gives [] exactly when the string is made only of separators. */
  lemma SplitEmptyIff(s: string, c: char)
    ensures Split(s, c) == [] <==> TrimEnd(s, c) == ""
  {
    SplitTrimEnd(s, c);
    var t := TrimEnd(s, c);
    if t == [] {
      assert Fields(t, c) == [""];
    } else {
      SplitNoTrailing(t, c);
    }
  }

  // ---------------------------------------------------------------------------
  // Decimal digits: String#to_i on a digit run and Integer#to_s
  // ---------------------------------------------------------------------------

  predicate IsDigit(ch: char) { '0' <= ch <= '9' }

  predicate AllDigits(d: string) {
    forall i :: 0 <= i < |d| ==> IsDigit(d[i])
  }

  /** The longest run of digits at the start of s (what a greedy `\d*` captures). */
  function LeadingDigits(s: string): (r: string)
    ensures AllDigits(r) && StartsWith(s, r)
    ensures |r| < |s| ==> !IsDigit(s[|r|])
    decreases |s|
  {
    if s != [] && IsDigit(s[0]) then [s[0]] + LeadingDigits(s[1..]) else []
  }

  /** `d.to_i` for a run of decimal digits ("" gives 0, as `"".to_i` does). */
  function DigitsValue(d: string): (n: nat)
    requires AllDigits(d)
    decreases |d|
  {
    if d == [] then 0
    else 10 * DigitsValue(d[..|d| - 1]) + (d[|d| - 1] as int - '0' as int)
  }

  function DigitChar(k: nat): (ch: char)
    requires k < 10
    ensures IsDigit(ch) && ch as int - '0' as int == k
  {
    ('0' as int + k) as char
  }

  /** `n.to_s` for a natural number. */
  function DecimalString(n: nat): (r: string)
    ensures r != [] && AllDigits(r)
    ensures n > 0 ==> r[0] != '0'
    decreases n
  {
    if n < 10 then [DigitChar(n)] else DecimalString(n / 10) + [DigitChar(n % 10)]
  }

  /** `i.to_s` for any integer, with a leading minus sign when negative. */
  function IntString(i: int): (r: string)
    ensures i >= 0 ==> r == DecimalString(i)
    ensures i < 0 ==> r == "-" + DecimalString(-i)
  {
    if i < 0 then "-" + DecimalString(-i) else DecimalString(i)
  }

  /** to_i undoes to_s. */
  lemma {:induction false} DigitsValueOfDecimal(n: nat)
    ensures DigitsValue(DecimalString(n)) == n
    decreases n
  {
    if n >= 10 {
      var d := DecimalString(n);
      DigitsValueOfDecimal(n / 10);
      assert d[..|d| - 1] == DecimalString(n / 10);
    }
  }

  /** A digit run followed by a non-digit is exactly what `\d*` captures. */
  lemma {:induction false} LeadingDigitsOf(d: string, rest: string)
    requires AllDigits(d)
    requires rest == [] || !IsDigit(rest[0])
    ensures LeadingDigits(d + rest) == d
    decreases |d|
  {
    if d == [] {
      assert d + rest == rest;
    } else {
      assert (d + rest)[1..] == d[1..] + rest;
      LeadingDigitsOf(d[1..], rest);
      assert [d[0]] + d[1..] == d;
    }
  }

  // ---------------------------------------------------------------------------
  // CGI.unescape and its inverse CGI.escape
  // ---------------------------------------------------------------------------

  predicate IsHex(ch: char) {
    IsDigit(ch) || 'a' <= ch <= 'f' || 'A' <= ch <= 'F'
  }

  function HexValue(ch: char): (v: nat)
    requires IsHex(ch)
    ensures v < 16
  {
    if IsDigit(ch) then ch as int - '0' as int
    else if 'a' <= ch <= 'f' then ch as int - 'a' as int + 10
    else ch as int - 'A' as int + 10
  }

  /** Upper-case hexadecimal digit, as CGI.escape writes it. */
  function HexDigit(v: nat): (ch: char)
    requires v < 16
    ensures IsHex(ch) && HexValue(ch) == v
  {
    if v < 10 then DigitChar(v) else ('A' as int + v - 10) as char
  }

  /**
   * CGI.unescape: '+' becomes a space and each `%XX` with two hex digits
   * becomes the character with code XX; every other character stays.
   */
  function Unescape(s: string): (r: string)
    ensures |r| <= |s|
    decreases |s|
  {
    if s == [] then []
    else if s[0] == '+' then [' '] + Unescape(s[1..])
    else if s[0] == '%' && |s| >= 3 && IsHex(s[1]) && IsHex(s[2]) then
      [(HexValue(s[1]) * 16 + HexValue(s[2])) as char] + Unescape(s[3..])
    else [s[0]] + Unescape(s[1..])
  }

  /** Characters CGI.escape leaves alone. */
  predicate Unreserved(ch: char) {
    'a' <= ch <= 'z' || 'A' <= ch <= 'Z' || IsDigit(ch) || ch == '_' || ch == '.' || ch == '-' || ch == '~'
  }

  /** CGI.escape for characters below 256: the partner that Unescape inverts. */
  function Escape(s: string): (r: string)
    requires forall i :: 0 <= i < |s| ==> s[i] as int < 256
    decreases |s|
  {
    if s == [] then []
    else EscapeChar(s[0]) + Escape(s[1..])
  }

  function EscapeChar(ch: char): (r: string)
    requires ch as int < 256
  {
    if Unreserved(ch) then [ch]
    else if ch == ' ' then ['+']
    else ['%', HexDigit(ch as int / 16), HexDigit(ch as int % 16)]
  }

  lemma UnescapeEscapeChar(ch: char, rest: string)
    requires ch as int < 256
    ensures Unescape(EscapeChar(ch) + rest) == [ch] + Unescape(rest)
  {
    var e := EscapeChar(ch);
    if Unreserved(ch) {
      assert (e + rest)[0] == ch && (e + rest)[1..] == rest;
    } else if ch == ' ' {
      assert (e + rest)[0] == '+' && (e + rest)[1..] == rest;
    } else {
      var t := e + rest;
      assert t[0] == '%' && t[1] == HexDigit(ch as int / 16) && t[2] == HexDigit(ch as int % 16);
      assert t[3..] == rest;
      assert (ch as int / 16) * 16 + ch as int % 16 == ch as int;
    }
  }

  /** Decoding what CGI.escape produced gives the original text back. */
  lemma {:induction false} UnescapeEscape(s: string)
    requires forall i :: 0 <= i < |s| ==> s[i] as int < 256
    ensures Unescape(Escape(s)) == s
    decreases |s|
  {
    if s != [] {
      UnescapeEscapeChar(s[0], Escape(s[1..]));
      UnescapeEscape(s[1..]);
      assert [s[0]] + s[1..] == s;
    }
  }

  /** Text with no '%' and no '+' is left exactly as it is. */
  lemma {:induction false} UnescapePlain(s: string)
    requires '%' !in s && '+' !in s
    ensures Unescape(s) == s
    decreases |s|
  {
    if s != [] {
      UnescapePlain(s[1..]);
      assert [s[0]] + s[1..] == s;
    }
  }

  // ---------------------------------------------------------------------------
  // String#gsub with a literal pattern
  // ---------------------------------------------------------------------------

  /** Ruby's `s.gsub(pat, rep)` for a literal pattern: non-overlapping, left to right. */
  function Gsub(s: string, pat: string, rep: string): (r: string)
    requires pat != []
    decreases |s|
  {
    if StartsWith(s, pat) then rep + Gsub(s[|pat|..], pat, rep)
    else if s == [] then []
    else [s[0]] + Gsub(s[1..], pat, rep)
  }

  /** A string in which the pattern occurs nowhere is returned as it is. */
  lemma {:induction false} GsubAbsent(s: string, pat: string, rep: string)
    requires pat != [] && !Contains(s, pat)
    ensures Gsub(s, pat, rep) == s
    decreases |s|
  {
    if s != [] {
      GsubAbsent(s[1..], pat, rep);
      assert [s[0]] + s[1..] == s;
    }
  }

  /** Text before the first occurrence is kept, the occurrence is replaced. */
  lemma {:induction false} GsubSplice(a: string, pat: string, rep: string, b: string)
    requires pat != [] && pat[0] !in a
    ensures Gsub(a + pat + b, pat, rep) == a + rep + Gsub(b, pat, rep)
    decreases |a|
  {
    var s := a + pat + b;
    if a == [] {
      assert s == pat + b;
      assert s[..|pat|] == pat;
      assert s[|pat|..] == b;
    } else {
      assert s[0] == a[0] != pat[0];
      assert s[1..] == a[1..] + pat + b;
      GsubSplice(a[1..], pat, rep, b);
      assert [a[0]] + a[1..] == a;
    }
  }
}
