/** The parts of JavaScript's `String.prototype` that the program relies on:
    `startsWith`, `split` with a one-character separator, and `trim`. */
module JsString {

  /** `s.startsWith(prefix)`. */
  predicate StartsWith(s: string, prefix: string) {
    prefix <= s
  }

  /** The WhiteSpace and LineTerminator code points of ECMAScript
      (section 12.2 and 12.3 of ECMA-262): the set `trim` strips. */
  predicate IsWhitespace(ch: char) {
    || ch == '\t' || ch == '\U{B}' || ch == '\U{C}' || ch == ' '
    || ch == '\U{A0}' || ch == '\U{FEFF}' || ch == '\U{1680}'
    || ('\U{2000}' <= ch <= '\U{200A}')
    || ch == '\U{202F}' || ch == '\U{205F}' || ch == '\U{3000}'
    || ch == '\n' || ch == '\r' || ch == '\U{2028}' || ch == '\U{2029}'
  }

  predicate AllWhitespace(s: string) {
    forall i :: 0 <= i < |s| ==> IsWhitespace(s[i])
  }

  /** Neither end is whitespace: the shape of every result of `trim`. */
  predicate IsTrimmed(s: string) {
    s == [] || (!IsWhitespace(s[0]) && !IsWhitespace(s[|s| - 1]))
  }

  /** Length of the whitespace run that starts `s`. */
  function LeadingWhitespace(s: string): (n: nat)
    ensures n <= |s| && AllWhitespace(s[..n])
    ensures n == |s| || !IsWhitespace(s[n])
    decreases |s|
  {
    if |s| > 0 && IsWhitespace(s[0]) then
      var n := 1 + LeadingWhitespace(s[1..]);
      assert forall k :: 1 <= k < n ==> s[k] == s[1..][k - 1];
      n
    else 0
  }

  /** Length of the whitespace run that ends `s`. */
  function TrailingWhitespace(s: string): (n: nat)
    ensures n <= |s| && AllWhitespace(s[|s| - n..])
    ensures n == |s| || !IsWhitespace(s[|s| - n - 1])
    decreases |s|
  {
    if |s| > 0 && IsWhitespace(s[|s| - 1]) then
      var p := s[..|s| - 1];
      var n := 1 + TrailingWhitespace(p);
      assert forall k :: |s| - n <= k < |s| - 1 ==> s[k] == p[k];
      n
    else 0
  }

  /** `s.trim()`: the middle of `s` once the whitespace runs at both ends
      are cut off. */
  function Trim(s: string): (r: string)
    ensures |r| <= |s|
    ensures IsTrimmed(r)
    ensures r == [] <==> AllWhitespace(s)
  {
    var i := LeadingWhitespace(s);
    if i == |s| then
      assert s[..i] == s;
      []
    else
      var j := |s| - TrailingWhitespace(s);
      assert forall k :: j <= k < |s| ==> IsWhitespace(s[k]) by {
        assert forall k :: j <= k < |s| ==> s[k] == s[j..][k - j];
      }
      s[i..j]
  }

  /** What `trim` returns is a stretch of its input with only whitespace
      on either side. */
  lemma TrimSlice(s: string)
    ensures exists i :: 0 <= i <= i + |Trim(s)| <= |s| && Trim(s) == s[i..i + |Trim(s)|]
                        && AllWhitespace(s[..i]) && AllWhitespace(s[i + |Trim(s)|..])
  {
    var i := LeadingWhitespace(s);
    if i == |s| {
      assert s[i..i] == [];
    }
  }

  /** The leading run is exactly a whitespace prefix followed by text that
      does not start with whitespace. */
  lemma {:induction false} LeadingRun(a: string, m: string)
    requires AllWhitespace(a)
    requires m == [] || !IsWhitespace(m[0])
    ensures LeadingWhitespace(a + m) == |a|
  {
    var s := a + m;
    var n := LeadingWhitespace(s);
    assert forall k :: 0 <= k < |a| ==> s[k] == a[k];
    assert forall k :: 0 <= k < n ==> IsWhitespace(s[k]) by {
      assert forall k :: 0 <= k < n ==> s[k] == s[..n][k];
    }
    assert m != [] ==> s[|a|] == m[0];
  }

  lemma {:induction false} TrailingRun(m: string, b: string)
    requires AllWhitespace(b)
    requires m == [] || !IsWhitespace(m[|m| - 1])
    ensures TrailingWhitespace(m + b) == |b|
  {
    TrailingCoversSuffix(m, b);
    if m != [] {
      TrailingStopsAtText(m, b);
    }
  }

  lemma TrailingCoversSuffix(m: string, b: string)
    requires AllWhitespace(b)
    ensures TrailingWhitespace(m + b) >= |b|
  {
    var s := m + b;
    assert forall k :: |m| <= k < |s| ==> s[k] == b[k - |m|];
  }

  lemma TrailingStopsAtText(m: string, b: string)
    requires m != [] && !IsWhitespace(m[|m| - 1])
    ensures TrailingWhitespace(m + b) <= |b|
  {
    var s := m + b;
    TrailingRunIndexed(s);
    assert s[|m| - 1] == m[|m| - 1];
  }

  /** The trailing whitespace run, stated character by character. */
  lemma TrailingRunIndexed(s: string)
    ensures forall k :: |s| - TrailingWhitespace(s) <= k < |s| ==> IsWhitespace(s[k])
  {
    var n := TrailingWhitespace(s);
    assert forall k :: |s| - n <= k < |s| ==> s[k] == s[|s| - n..][k - (|s| - n)];
  }

  /** `trim` is determined by its result: whatever trimmed text sits between
      two whitespace runs is exactly what `trim` returns. */
  lemma TrimExact(a: string, m: string, b: string)
    requires AllWhitespace(a) && AllWhitespace(b) && IsTrimmed(m)
    ensures Trim(a + m + b) == m
  {
    var s := a + m + b;
    if m == [] {
      assert s == (a + b) + [];
      LeadingRun(a + b, []);
    } else {
      assert s == a + (m + b);
      LeadingRun(a, m + b);
      TrailingRun(a + m, b);
      assert s[|a|..|s| - |b|] == m;
    }
  }

  /** Trimmed text is a fixed point of `trim`, so `trim` is idempotent. */
  lemma TrimTrimmed(s: string)
    ensures IsTrimmed(s) <==> Trim(s) == s
    ensures Trim(Trim(s)) == Trim(s)
  {
    if IsTrimmed(s) {
      TrimExact([], s, []);
      assert [] + s + [] == s;
    }
    var t := Trim(s);
    TrimExact([], t, []);
    assert [] + t + [] == t;
  }

  /** `parts.join(sep)`. */
  function Join(parts: seq<string>, sep: char): string
    requires |parts| > 0
  {
    if |parts| == 1 then parts[0] else parts[0] + [sep] + Join(parts[1..], sep)
  }

  /** `s.split(sep)` for a one-character separator: the pieces between
      separators, one more than there are separators, so `"".split(",")`
      is `[""]`. Joining the pieces back gives `s`. */
  function Split(s: string, sep: char): (parts: seq<string>)
    ensures |parts| > 0
    ensures forall i :: 0 <= i < |parts| ==> sep !in parts[i]
    ensures Join(parts, sep) == s
    decreases |s|
  {
    if |s| == 0 then [""]
    else
      var rest := Split(s[1..], sep);
      if s[0] == sep then
        var r := [""] + rest;
        assert r[1..] == rest;
        r
      else
        var r := [[s[0]] + rest[0]] + rest[1..];
        assert |r| > 1 ==> r[1..] == rest[1..];
        r
  }

  /** Splitting at a separator splits the two sides independently. */
  lemma {:induction false} SplitConcat(a: string, sep: char, b: string)
    ensures Split(a + [sep] + b, sep) == Split(a, sep) + Split(b, sep)
    decreases |a|
  {
    if |a| == 0 {
      assert a + [sep] + b == [sep] + b;
      assert ([sep] + b)[1..] == b;
    } else {
      assert (a + [sep] + b)[1..] == a[1..] + [sep] + b;
      SplitConcat(a[1..], sep, b);
    }
  }

  lemma {:induction false} SplitNoSeparator(s: string, sep: char)
    requires sep !in s
    ensures Split(s, sep) == [s]
    decreases |s|
  {
    if |s| > 0 {
      SplitNoSeparator(s[1..], sep);
      assert [s[0]] + s[1..] == s;
    }
  }

  /** Round trip: pieces free of the separator come back from `split`
      exactly as they were joined. */
  lemma {:induction false} SplitJoin(parts: seq<string>, sep: char)
    requires |parts| > 0
    requires forall i :: 0 <= i < |parts| ==> sep !in parts[i]
    ensures Split(Join(parts, sep), sep) == parts
    decreases |parts|
  {
    if |parts| == 1 {
      SplitNoSeparator(parts[0], sep);
    } else {
      SplitJoin(parts[1..], sep);
      SplitConcat(parts[0], sep, Join(parts[1..], sep));
      SplitNoSeparator(parts[0], sep);
      assert [parts[0]] + parts[1..] == parts;
    }
  }

  /** Joining `n` separator-free pieces puts exactly `n - 1` separators
      into the result. */
  lemma {:induction false} JoinSeparatorCount(parts: seq<string>, sep: char)
    requires |parts| > 0
    requires forall i :: 0 <= i < |parts| ==> sep !in parts[i]
    ensures multiset(Join(parts, sep))[sep] == |parts| - 1
    decreases |parts|
  {
    if |parts| > 1 {
      JoinSeparatorCount(parts[1..], sep);
      var rest := Join(parts[1..], sep);
      assert multiset(parts[0] + [sep] + rest)
          == multiset(parts[0]) + multiset([sep]) + multiset(rest);
    }
  }

  /** `s.split(sep)` has one more piece than `s` has separators. */
  lemma SplitCount(s: string, sep: char)
    ensures |Split(s, sep)| == multiset(s)[sep] + 1
  {
    JoinSeparatorCount(Split(s, sep), sep);
  }
}
