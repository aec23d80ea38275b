/**
  The JavaScript string operations the renderer is built from: `\s` and `trim`,
  `replaceAll` with a string pattern, `split` on one character and `join`.
  Strings are sequences of characters.
 */
module Strings {

  /** A character matched by `\s` in a JavaScript regular expression: the
      ECMAScript WhiteSpace and LineTerminator characters. `String.prototype.trim`
      strips exactly these. */
  predicate IsSpace(c: char)
  {
    || c == '\t' || c == '\n' || c == '\U{B}' || c == '\U{C}' || c == '\r' || c == ' '
    || c == '\U{A0}' || c == '\U{1680}' || ('\U{2000}' <= c <= '\U{200A}')
    || c == '\U{2028}' || c == '\U{2029}' || c == '\U{202F}' || c == '\U{205F}'
    || c == '\U{3000}' || c == '\U{FEFF}'
  }

  /** A character that `.` in a JavaScript regular expression does not match. */
  predicate IsLineTerminator(c: char)
  {
    c == '\n' || c == '\r' || c == '\U{2028}' || c == '\U{2029}'
  }

  /** Number of leading `\s` characters of `s`. */
  function LeadingSpace(s: string): (n: nat)
    ensures n <= |s|
    ensures forall k :: 0 <= k < n ==> IsSpace(s[k])
    ensures n < |s| ==> !IsSpace(s[n])
  {
    if s != [] && IsSpace(s[0]) then 1 + LeadingSpace(s[1..]) else 0
  }

  /** Number of trailing `\s` characters of `s`. */
  function TrailingSpace(s: string): (n: nat)
    ensures n <= |s|
    ensures forall k :: |s| - n <= k < |s| ==> IsSpace(s[k])
    ensures n < |s| ==> !IsSpace(s[|s| - n - 1])
  {
    if s != [] && IsSpace(s[|s| - 1]) then 1 + TrailingSpace(s[..|s| - 1]) else 0
  }

  /** `String.prototype.trim`: `s` without its leading and trailing `\s` characters. */
  function Trim(s: string): (r: string)
    ensures r == [] <==> forall k :: 0 <= k < |s| ==> IsSpace(s[k])
    ensures r != [] ==> !IsSpace(r[0]) && !IsSpace(r[|r| - 1])
    ensures LeadingSpace(s) + |r| <= |s|
    ensures r == s[LeadingSpace(s)..LeadingSpace(s) + |r|]
    ensures forall k :: LeadingSpace(s) + |r| <= k < |s| ==> IsSpace(s[k])
  {
    var lead := LeadingSpace(s);
    var rest := s[lead..];
    rest[..|rest| - TrailingSpace(rest)]
  }

  /** Trimming twice is trimming once. */
  lemma TrimIdempotent(s: string)
    ensures Trim(Trim(s)) == Trim(s)
  {
    var t := Trim(s);
    if t != [] {
      assert LeadingSpace(t) == 0;
      assert TrailingSpace(t) == 0;
    }
  }

  /** A string that neither begins nor ends with `\s` is its own trim. */
  lemma TrimOfTrimmed(s: string)
    requires s != [] && !IsSpace(s[0]) && !IsSpace(s[|s| - 1])
    ensures Trim(s) == s
  {
    assert LeadingSpace(s) == 0;
    assert s[0..] == s;
    assert TrailingSpace(s) == 0;
  }

  /** Length of the longest prefix of `s` that does not contain `c`:
      the index of the first `c`, or `|s|` when there is none. */
  function Until(s: string, c: char): (n: nat)
    ensures n <= |s|
    ensures forall k :: 0 <= k < n ==> s[k] != c
    ensures n < |s| ==> s[n] == c
  {
    if s == [] || s[0] == c then 0 else 1 + Until(s[1..], c)
  }

  /** Number of occurrences of `c` in `s`. */
  function Count(s: string, c: char): (n: nat)
    ensures n <= |s|
    ensures n == 0 <==> c !in s
  {
    if s == [] then 0 else (if s[0] == c then 1 else 0) + Count(s[1..], c)
  }

  lemma {:induction false} CountAppend(a: string, b: string, c: char)
    ensures Count(a + b, c) == Count(a, c) + Count(b, c)
  {
    if a == [] {
      assert a + b == b;
    } else {
      assert (a + b)[1..] == a[1..] + b;
      CountAppend(a[1..], b, c);
    }
  }

  /** `s.replaceAll(pat, rep)` with a string pattern: every occurrence of `pat`,
      found left to right without overlap, is replaced by `rep`. The same
      scan is what a global regular expression with a literal pattern does. */
  function ReplaceAll(s: string, pat: string, rep: string): (r: string)
    requires pat != []
    ensures pat[0] !in s ==> r == s
    decreases |s|
  {
    if s == [] then []
    else if pat <= s then rep + ReplaceAll(s[|pat|..], pat, rep)
    else [s[0]] + ReplaceAll(s[1..], pat, rep)
  }

  /** Replacing a one-character pattern works character by character, so it
      distributes over concatenation. */
  lemma {:induction false} ReplaceCharAppend(a: string, b: string, c: char, rep: string)
    ensures ReplaceAll(a + b, [c], rep) == ReplaceAll(a, [c], rep) + ReplaceAll(b, [c], rep)
  {
    if a == [] {
      assert a + b == b;
    } else {
      assert (a + b)[0] == a[0];
      assert (a + b)[1..] == a[1..] + b;
      assert [c] <= a + b <==> a[0] == c;
      assert [c] <= a <==> a[0] == c;
      ReplaceCharAppend(a[1..], b, c, rep);
    }
  }

  /** A prefix `t` in which the pattern's first character never occurs is copied
      through unchanged and the scan resumes right after it. */
  lemma {:induction false} ReplaceSkips(t: string, rest: string, pat: string, rep: string)
    requires pat != [] && pat[0] !in t
    ensures ReplaceAll(t + rest, pat, rep) == t + ReplaceAll(rest, pat, rep)
  {
    if t == [] {
      assert t + rest == rest;
    } else {
      assert (t + rest)[0] == t[0] != pat[0];
      assert !(pat <= t + rest);
      assert (t + rest)[1..] == t[1..] + rest;
      ReplaceSkips(t[1..], rest, pat, rep);
    }
  }

  /** The scan moves past a prefix `head` that the pattern does not start
      at, and whose remaining characters hold no first character of the
      pattern. */
  lemma ReplacePassesOver(head: string, rest: string, pat: string, rep: string)
    requires |head| >= 2 && |pat| >= 2 && head[1] != pat[1]
    requires pat[0] !in head[1..]
    ensures ReplaceAll(head + rest, pat, rep) == head + ReplaceAll(rest, pat, rep)
  {
    var t := head[1..];
    assert head == [head[0]] + t;
    ReplaceMisses(head[0], t, rest, pat, rep);
    ReplaceSkips(t, rest, pat, rep);
  }

  /** The pattern does not start at a string whose second character differs
      from its own: the scan copies one character and moves on. */
  lemma ReplaceMisses(c: char, t: string, rest: string, pat: string, rep: string)
    requires |t| >= 1 && |pat| >= 2 && t[0] != pat[1]
    ensures ReplaceAll([c] + t + rest, pat, rep) == [c] + ReplaceAll(t + rest, pat, rep)
  {
    var s := [c] + t + rest;
    assert s[1] == t[0];
    assert !(pat <= s) by {
      if |pat| <= |s| {
        assert s[..|pat|][1] == s[1];
      }
    }
    assert s[1..] == t + rest;
  }

  /** `parts.join(sep)`. */
  function Join(parts: seq<string>, sep: string): (r: string)
  {
    if |parts| == 0 then ""
    else if |parts| == 1 then parts[0]
    else parts[0] + sep + Join(parts[1..], sep)
  }

  lemma SplitStep(s: string, c: char, j: nat, rest: seq<string>)
    requires j < |s| && s[j] == c && c !in s[..j]
    requires |rest| == Count(s[j + 1..], c) + 1
    requires Join(rest, [c]) == s[j + 1..]
    ensures |[s[..j]] + rest| == Count(s, c) + 1
    ensures Join([s[..j]] + rest, [c]) == s
  {
    assert s == s[..j] + s[j..];
    CountAppend(s[..j], s[j..], c);
    assert s[j..] == [c] + s[j + 1..];
    CountAppend([c], s[j + 1..], c);
    assert ([s[..j]] + rest)[1..] == rest;
    assert s == s[..j] + [c] + s[j + 1..];
  }

  /** `s.split(c)` for a one-character separator: the pieces between the
      occurrences of `c`, always at least one (`"".split(c)` is `[""]`). */
  function Split(s: string, c: char): (r: seq<string>)
    ensures |r| == Count(s, c) + 1
    ensures forall k :: 0 <= k < |r| ==> c !in r[k]
    ensures Join(r, [c]) == s
    decreases |s|
  {
    var j := Until(s, c);
    if j == |s| then [s]
    else
      var rest := Split(s[j + 1..], c);
      SplitStep(s, c, j, rest);
      [s[..j]] + rest
  }

  /** The first `c` of `a + [c] + b` is the one after `a` when `a` has none. */
  lemma UntilSeparator(a: string, c: char, b: string)
    requires c !in a
    ensures Until(a + [c] + b, c) == |a|
  {
    var s := a + [c] + b;
    assert s[|a|] == c;
    assert forall k :: 0 <= k < |a| ==> s[k] == a[k];
  }

  /** Splitting the join of pieces that do not contain the separator gives
      the pieces back. */
  lemma {:induction false} SplitJoin(parts: seq<string>, c: char)
    requires parts != []
    requires forall k :: 0 <= k < |parts| ==> c !in parts[k]
    ensures Split(Join(parts, [c]), c) == parts
  {
    if |parts| == 1 {
      assert Until(parts[0], c) == |parts[0]|;
    } else {
      var tail := Join(parts[1..], [c]);
      var s := Join(parts, [c]);
      assert s == parts[0] + [c] + tail;
      UntilSeparator(parts[0], c, tail);
      assert s[..|parts[0]|] == parts[0];
      assert s[|parts[0]| + 1..] == tail;
      SplitJoin(parts[1..], c);
      assert [parts[0]] + parts[1..] == parts;
    }
  }

  /** A character in none of the pieces and not in the separator is not in
      their join. */
  lemma {:induction false} JoinAvoids(parts: seq<string>, sep: string, c: char)
    requires c !in sep
    requires forall k :: 0 <= k < |parts| ==> c !in parts[k]
    ensures c !in Join(parts, sep)
  {
    if |parts| > 1 {
      JoinAvoids(parts[1..], sep, c);
    }
  }
}
