/** String helpers shared by the validator, the portfolio filter and the chat responder.
    Each one stands for a JavaScript built-in the site script relies on: `trim`, the regex
    class `\s`, `includes`, `split(/re/).filter(Boolean)`, `toLowerCase` and `join`. */
module Text {

  /** The characters JavaScript's `String.prototype.trim` strips and the regex class `\s`
      matches: the WhiteSpace and LineTerminator code points of ECMA-262 (tab, vertical tab,
      form feed, space, no-break space, the byte order mark, the space separators of
      category Zs, line feed, carriage return, line and paragraph separators). */
  predicate IsSpace(c: char) {
    || c == '\t' || c == '\n' || c == '\U{000B}' || c == '\U{000C}' || c == '\r' || c == ' '
    || c == '\U{00A0}' || c == '\U{1680}' || ('\U{2000}' <= c <= '\U{200A}')
    || c == '\U{2028}' || c == '\U{2029}' || c == '\U{202F}' || c == '\U{205F}'
    || c == '\U{3000}' || c == '\U{FEFF}'
  }

  predicate AllSpace(s: string) {
    forall i :: 0 <= i < |s| ==> IsSpace(s[i])
  }

  /** Drops the leading white space of `s`. */
  function TrimStart(s: string): (r: string)
    ensures |r| <= |s| && r == s[|s| - |r|..]
    ensures AllSpace(s[..|s| - |r|])
    ensures r == [] || !IsSpace(r[0])
  {
    if |s| > 0 && IsSpace(s[0]) then
      var r := TrimStart(s[1..]);
      assert s[1..][..|s| - 1 - |r|] == s[1..|s| - |r|];
      r
    else s
  }

  /** Drops the trailing white space of `s`. */
  function TrimEnd(s: string): (r: string)
    ensures |r| <= |s| && r == s[..|r|]
    ensures AllSpace(s[|r|..])
    ensures r == [] || !IsSpace(r[|r| - 1])
  {
    if |s| > 0 && IsSpace(s[|s| - 1]) then
      var t := s[..|s| - 1];
      var r := TrimEnd(t);
      assert t[..|r|] == s[..|r|];
      assert s[|r|..] == t[|r|..] + [s[|s| - 1]];
      assert forall i :: 0 <= i < |s| - |r| ==> IsSpace(s[|r|..][i]) by {
        forall i | 0 <= i < |s| - |r|
          ensures IsSpace(s[|r|..][i])
        {
          if i < |t| - |r| { assert s[|r|..][i] == t[|r|..][i]; }
        }
      }
      r
    else s
  }

  /** `r` sits in `s` at offset `i` with only white space around it. */
  predicate TrimmedAt(s: string, r: string, i: int) {
    && 0 <= i && i + |r| <= |s|
    && s[i..i + |r|] == r
    && AllSpace(s[..i])
    && AllSpace(s[i + |r|..])
  }

  /** `s.trim()`: the slice of `s` left once white space is removed from both ends. */
  function Trim(s: string): (r: string)
    ensures exists i :: TrimmedAt(s, r, i)
    ensures r == [] || (!IsSpace(r[0]) && !IsSpace(r[|r| - 1]))
  {
    TrimBothEnds(s);
    TrimEnd(TrimStart(s))
  }

  lemma TrimBothEnds(s: string)
    ensures TrimmedAt(s, TrimEnd(TrimStart(s)), |s| - |TrimStart(s)|)
  {
    SliceBetweenSpaces(s, TrimStart(s), TrimEnd(TrimStart(s)));
  }

  /** A prefix `r` of a suffix `a` of `s`, with only white space before `a` and after `r`
      within `a`, sits in `s` between white-space-only edges. */
  lemma SliceBetweenSpaces(s: string, a: string, r: string)
    requires |a| <= |s| && a == s[|s| - |a|..] && AllSpace(s[..|s| - |a|])
    requires |r| <= |a| && r == a[..|r|] && AllSpace(a[|r|..])
    ensures TrimmedAt(s, r, |s| - |a|)
  {
    var i := |s| - |a|;
    assert s[i..i + |r|] == r;
    assert s[i + |r|..] == a[|r|..];
  }

  /** A string trims to nothing exactly when it is all white space. */
  lemma TrimEmptyIff(s: string)
    ensures Trim(s) == [] <==> AllSpace(s)
  {
    var r := Trim(s);
    var i :| TrimmedAt(s, r, i);
    if r == [] {
      assert s == s[..i] + s[i..];
    }
  }

  /** `k` occurs in `s` starting at index `i`. */
  predicate OccursAt(s: string, k: string, i: int) {
    0 <= i && i + |k| <= |s| && s[i..i + |k|] == k
  }

  /** `s.includes(k)`, scanning `s` from the left. */
  predicate Contains(s: string, k: string)
    decreases |s|
  {
    || (|k| <= |s| && s[..|k|] == k)
    || (|s| > 0 && Contains(s[1..], k))
  }

  /** The scan finds `k` exactly when `k` occurs somewhere in `s`. */
  lemma {:induction false} ContainsIff(s: string, k: string)
    ensures Contains(s, k) <==> exists i :: OccursAt(s, k, i)
    decreases |s|
  {
    if |k| <= |s| && s[..|k|] == k {
      assert OccursAt(s, k, 0);
    } else if |s| > 0 {
      ContainsIff(s[1..], k);
      if Contains(s[1..], k) {
        var i :| OccursAt(s[1..], k, i);
        assert s[i + 1..i + 1 + |k|] == s[1..][i..i + |k|];
        assert OccursAt(s, k, i + 1);
      } else {
        forall i | OccursAt(s, k, i)
          ensures false
        {
          assert i != 0;
          assert s[1..][i - 1..i - 1 + |k|] == s[i..i + |k|];
          assert OccursAt(s[1..], k, i - 1);
        }
      }
    } else {
      forall i | OccursAt(s, k, i)
        ensures false
      {
      }
    }
  }

  /** A non-empty run of characters none of which is a separator. */
  predicate IsWord(w: string, sep: char -> bool) {
    w != [] && forall i :: 0 <= i < |w| ==> !sep(w[i])
  }

  /** Length of the longest separator-free prefix of `s`. */
  function WordLength(s: string, sep: char -> bool): (n: nat)
    ensures n <= |s|
    ensures forall i :: 0 <= i < n ==> !sep(s[i])
    ensures n < |s| ==> sep(s[n])
  {
    if s == [] || sep(s[0]) then 0 else 1 + WordLength(s[1..], sep)
  }

  /** The non-separator characters of `s`, in order. */
  function Keep(s: string, sep: char -> bool): string {
    if s == [] then []
    else (if sep(s[0]) then [] else [s[0]]) + Keep(s[1..], sep)
  }

  lemma {:induction false} KeepAppend(a: string, b: string, sep: char -> bool)
    ensures Keep(a + b, sep) == Keep(a, sep) + Keep(b, sep)
    decreases |a|
  {
    if a != [] {
      assert (a + b)[1..] == a[1..] + b;
      KeepAppend(a[1..], b, sep);
    } else {
      assert a + b == b;
    }
  }

  lemma {:induction false} KeepWord(w: string, sep: char -> bool)
    requires forall i :: 0 <= i < |w| ==> !sep(w[i])
    ensures Keep(w, sep) == w
    decreases |w|
  {
    if w != [] {
      KeepWord(w[1..], sep);
    }
  }

  function Concat(ws: seq<string>): string {
    if ws == [] then [] else ws[0] + Concat(ws[1..])
  }

  /** `s.split(/sep+/).filter(Boolean)`: the maximal runs of non-separator characters of
      `s`, left to right. Every piece is a word, and together they hold exactly the
      non-separator characters of `s`. */
  function Split(s: string, sep: char -> bool): (r: seq<string>)
    ensures forall k :: 0 <= k < |r| ==> IsWord(r[k], sep)
    ensures Concat(r) == Keep(s, sep)
    decreases |s|
  {
    if s == [] then []
    else if sep(s[0]) then
      var r := Split(s[1..], sep);
      assert Keep(s, sep) == Keep(s[1..], sep);
      r
    else
      var n := WordLength(s, sep);
      var rest := Split(s[n..], sep);
      KeepAppend(s[..n], s[n..], sep);
      KeepWord(s[..n], sep);
      assert s[..n] + s[n..] == s;
      assert ([s[..n]] + rest)[1..] == rest;
      [s[..n]] + rest
  }

  /** A single word splits into itself. */
  lemma SplitWord(w: string, sep: char -> bool)
    requires IsWord(w, sep)
    ensures Split(w, sep) == [w]
  {
    var n := WordLength(w, sep);
    assert !sep(w[0]);
    assert n == |w|;
    assert w[..n] == w && w[n..] == [];
    assert Split(w[n..], sep) == [];
    assert Split(w, sep) == [w[..n]] + Split(w[n..], sep);
  }

  /** A word followed by a separator splits off as the first piece. */
  lemma SplitLeadingWord(w: string, c: char, rest: string, sep: char -> bool)
    requires IsWord(w, sep) && sep(c)
    ensures Split(w + [c] + rest, sep) == [w] + Split(rest, sep)
  {
    var s := w + [c] + rest;
    var n := WordLength(s, sep);
    assert s[|w|] == c;
    assert forall i :: 0 <= i < |w| ==> s[i] == w[i];
    assert n == |w|;
    assert s[..n] == w;
    assert s[n..] == [c] + rest;
    assert ([c] + rest)[1..] == rest;
  }

  /** A leading separator is dropped. With `SplitWord` and `SplitLeadingWord` this fixes
      the pieces of every input: each is a maximal run of non-separators. */
  lemma SplitSkipsSeparator(c: char, rest: string, sep: char -> bool)
    requires sep(c)
    ensures Split([c] + rest, sep) == Split(rest, sep)
  {
    assert ([c] + rest)[1..] == rest;
  }

  /** A string holding no word (empty, or separators only) splits into nothing. */
  lemma {:induction false} SplitNoWord(s: string, sep: char -> bool)
    requires forall i :: 0 <= i < |s| ==> sep(s[i])
    ensures Split(s, sep) == []
    decreases |s|
  {
    if s != [] {
      SplitNoWord(s[1..], sep);
    }
  }

  function LowerChar(c: char): char {
    if 'A' <= c <= 'Z' then (c as int + 32) as char else c
  }

  /** `toLowerCase` restricted to the ASCII letters (see README for what this leaves out). */
  function AsciiLower(s: string): (r: string)
    ensures |r| == |s|
    ensures forall i :: 0 <= i < |s| ==> !('A' <= r[i] <= 'Z')
    ensures forall i :: 0 <= i < |s| ==> !('A' <= s[i] <= 'Z') ==> r[i] == s[i]
  {
    seq(|s|, i requires 0 <= i < |s| => LowerChar(s[i]))
  }

  /** Lower-casing twice is lower-casing once. */
  lemma AsciiLowerIdempotent(s: string)
    ensures AsciiLower(AsciiLower(s)) == AsciiLower(s)
  {
  }

  /** Each part with the separator in front of it. */
  function Prefixed(parts: seq<string>, sep: string): (r: seq<string>)
    ensures |r| == |parts| && forall k :: 0 <= k < |parts| ==> r[k] == sep + parts[k]
  {
    seq(|parts|, k requires 0 <= k < |parts| => sep + parts[k])
  }

  /** `parts.join(sep)`: the first part, then every later part preceded by `sep`. */
  function Join(parts: seq<string>, sep: string): (r: string)
    ensures |parts| == 0 ==> r == []
    ensures |parts| > 0 ==> r == parts[0] + Concat(Prefixed(parts[1..], sep))
    ensures |parts| > 0 ==> |r| == |Concat(parts)| + (|parts| - 1) * |sep|
  {
    if |parts| == 0 then []
    else
      var r := if |parts| == 1 then parts[0] else parts[0] + sep + Join(parts[1..], sep);
      JoinShape(parts, sep, r);
      r
  }

  lemma JoinShape(parts: seq<string>, sep: string, r: string)
    requires |parts| > 0
    requires |parts| == 1 ==> r == parts[0]
    requires |parts| > 1 ==> r == parts[0] + sep + Join(parts[1..], sep)
    ensures r == parts[0] + Concat(Prefixed(parts[1..], sep))
    ensures |r| == |Concat(parts)| + (|parts| - 1) * |sep|
  {
    if |parts| == 1 {
      JoinOne(parts, sep);
    } else {
      var t := parts[1..];
      var j := Join(t, sep);
      JoinStepContent(parts[0], sep, t, j);
      JoinStepLength(parts[0], sep, t, j);
      assert [parts[0]] + t == parts;
    }
  }

  lemma JoinOne(parts: seq<string>, sep: string)
    requires |parts| == 1
    ensures Concat(Prefixed(parts[1..], sep)) == []
    ensures |Concat(parts)| == |parts[0]|
  {
    assert Prefixed(parts[1..], sep) == [];
    assert Concat(parts) == parts[0] + Concat([]);
  }

  lemma JoinStepContent(first: string, sep: string, t: seq<string>, j: string)
    requires |t| > 0
    requires j == t[0] + Concat(Prefixed(t[1..], sep))
    ensures first + sep + j == first + Concat(Prefixed(t, sep))
  {
    var ps := Prefixed(t, sep);
    var tail := Concat(Prefixed(t[1..], sep));
    assert ps[1..] == Prefixed(t[1..], sep);
    assert Concat(ps) == (sep + t[0]) + tail;
    assert first + sep + j == first + ((sep + t[0]) + tail);
  }
  lemma JoinStepLength(first: string, sep: string, t: seq<string>, j: string)
    requires |t| > 0
    requires |j| == |Concat(t)| + (|t| - 1) * |sep|
    ensures |first + sep + j| == |Concat([first] + t)| + |t| * |sep|
  {
    assert ([first] + t)[1..] == t;
    assert Concat([first] + t) == first + Concat(t);
    assert |t| * |sep| == (|t| - 1) * |sep| + |sep|;
  }

  /** The positions of `s` holding a character beyond U+FFFF, which UTF-16 writes as a
      surrogate pair. */
  function AstralAt(s: string): set<nat> {
    set i: nat | i < |s| && s[i] >= '\U{10000}'
  }

  /** The positions below `n`. */
  function Below(n: nat): (r: set<nat>)
    ensures |r| == n
    ensures forall i: nat :: i in r <==> i < n
  {
    if n == 0 then {} else
      var r := Below(n - 1) + {n - 1};
      assert n - 1 !in Below(n - 1);
      r
  }

  /** `s.length`: JavaScript counts UTF-16 code units, so a character beyond U+FFFF (an
      emoji, say) counts twice. */
  function Units(s: string): (n: nat)
    ensures |s| <= n <= 2 * |s|
    ensures n == |s| <==> forall i :: 0 <= i < |s| ==> s[i] < '\U{10000}'
  {
    AstralBounds(s);
    |s| + |AstralAt(s)|
  }

  lemma AstralBounds(s: string)
    ensures |AstralAt(s)| <= |s|
    ensures |AstralAt(s)| == 0 <==> forall i :: 0 <= i < |s| ==> s[i] < '\U{10000}'
  {
    var astral, all := AstralAt(s), Below(|s|);
    assert astral <= all;
    assert all == astral + (all - astral);
    if |astral| == 0 {
      forall i | 0 <= i < |s| ensures s[i] < '\U{10000}' {
        assert i !in astral;
      }
    } else {
      var i :| i in astral;
      assert s[i] >= '\U{10000}';
    }
  }

  /** A string made only of characters beyond U+FFFF is twice as long in code units. */
  lemma UnitsAstral(s: string)
    requires forall i :: 0 <= i < |s| ==> s[i] >= '\U{10000}'
    ensures Units(s) == 2 * |s|
  {
    assert AstralAt(s) == Below(|s|);
  }

  /** Appending one character beyond U+FFFF to a string of ordinary characters adds two
      code units. */
  lemma UnitsAstralLast(w: string, e: char)
    requires forall i :: 0 <= i < |w| ==> w[i] < '\U{10000}'
    requires e >= '\U{10000}'
    ensures Units(w + [e]) == |w| + 2
  {
    assert AstralAt(w + [e]) == {|w|};
  }
}
