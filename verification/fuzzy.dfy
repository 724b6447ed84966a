/** The chat responder's similarity score between a message token and a keyword, over
    exact rationals: 0.7 times the Jaccard index of the two character sets plus 0.3 times
    how close the lengths are, after a cheap rejection of very different lengths. */
module Fuzzy {
  import opened Text

  function CharSet(s: string): set<char> {
    set c | c in s
  }

  /** `Math.abs(a.length - b.length)`, lengths in UTF-16 code units. */
  function Diff(a: string, b: string): nat {
    if Units(a) >= Units(b) then Units(a) - Units(b) else Units(b) - Units(a)
  }

  /** `Math.max(a.length, b.length)`, lengths in UTF-16 code units. */
  function MaxLen(a: string, b: string): nat {
    if Units(a) >= Units(b) then Units(a) else Units(b)
  }

  function MaxReal(x: real, y: real): real {
    if x >= y then x else y
  }

  /** The cheap rejection: the lengths differ by more than `max(4, 0.6 * b.length)`. Only
      the second string's length sets the bound. */
  predicate TooFarApart(a: string, b: string) {
    Diff(a, b) as real > MaxReal(4.0, 0.6 * Units(b) as real)
  }

  lemma NonEmptyCharSet(s: string)
    requires s != []
    ensures |CharSet(s)| >= 1
  {
    assert s[0] in CharSet(s);
  }

  /** A subset is no larger than its superset, and as large only when it is the superset. */
  lemma SubsetSize(x: set<char>, y: set<char>)
    requires x <= y
    ensures |x| <= |y|
    ensures |x| == |y| ==> x == y
  {
    assert y == x + (y - x);
    assert x !! (y - x);
    if |x| == |y| {
      assert y - x == {};
    }
  }

  /** `inter / union` with `union` computed as in the code, `|A| + |B| - inter`. */
  function Jaccard(a: string, b: string): (j: real)
    requires a != [] || b != []
    ensures 0.0 <= j <= 1.0
    ensures j == 1.0 <==> CharSet(a) == CharSet(b)
    ensures j == 0.0 <==> CharSet(a) !! CharSet(b)
  {
    JaccardFacts(a, b);
    var inter := |CharSet(a) * CharSet(b)|;
    var union := |CharSet(a)| + |CharSet(b)| - inter;
    JaccardRatio(inter, union);
    inter as real / union as real
  }

  lemma JaccardFacts(a: string, b: string)
    requires a != [] || b != []
    ensures var inter := |CharSet(a) * CharSet(b)|;
      var union := |CharSet(a)| + |CharSet(b)| - inter;
      0 < union && inter <= union &&
      (inter == union <==> CharSet(a) == CharSet(b)) &&
      (inter == 0 <==> CharSet(a) !! CharSet(b))
  {
    var sa, sb := CharSet(a), CharSet(b);
    var inter := |sa * sb|;
    var union := |sa| + |sb| - inter;
    assert union == |sa + sb|;
    SubsetSize(sa * sb, sa + sb);
    if a != [] { NonEmptyCharSet(a); } else { NonEmptyCharSet(b); }
    SubsetSize(sa, sa + sb);
    SubsetSize(sb, sa + sb);
    if inter == union {
      assert sa == sb by {
        assert sa <= sa * sb && sb <= sa * sb;
      }
    }
    if sa == sb {
      assert sa * sb == sa + sb;
    }
    if sa !! sb {
      assert sa * sb == {};
    }
    if inter == 0 {
      assert sa * sb == {};
      assert forall c :: c in sa && c in sb ==> c in sa * sb;
    }
  }

  lemma JaccardRatio(inter: nat, union: nat)
    requires 0 < union && inter <= union
    ensures 0.0 <= inter as real / union as real <= 1.0
    ensures inter as real / union as real == 1.0 <==> inter == union
    ensures inter as real / union as real == 0.0 <==> inter == 0
  {
    var q := inter as real / union as real;
    assert q * union as real == inter as real;
  }

  /** `1 - |Δlen| / max len`, lengths in UTF-16 code units. */
  function Closeness(a: string, b: string): (l: real)
    requires a != [] || b != []
    ensures 0.0 <= l <= 1.0
    ensures l == 1.0 <==> Units(a) == Units(b)
  {
    JaccardRatio(Diff(a, b), MaxLen(a, b));
    1.0 - Diff(a, b) as real / MaxLen(a, b) as real
  }

  /** `fuzzyScore(a, b)`. Lies in [0, 1]; is 1 for equal strings; is 0 when the lengths
      are too far apart. */
  function Score(a: string, b: string): (r: real)
    ensures 0.0 <= r <= 1.0
    ensures a == b ==> r == 1.0
    ensures a != b && TooFarApart(a, b) ==> r == 0.0
  {
    if a == b then 1.0
    else if TooFarApart(a, b) then 0.0
    else 0.7 * Jaccard(a, b) + 0.3 * Closeness(a, b)
  }

  /** The score of two different strings within the length bound, from the sizes of
      their character sets and of the sets' intersection. */
  lemma ScoreFromCounts(a: string, b: string, na: nat, nb: nat, ni: nat)
    requires a != b && !TooFarApart(a, b)
    requires |CharSet(a)| == na && |CharSet(b)| == nb && |CharSet(a) * CharSet(b)| == ni
    ensures a != [] || b != []
    ensures 0 < na + nb - ni && 0 < MaxLen(a, b)
    ensures Score(a, b) ==
      0.7 * (ni as real / (na + nb - ni) as real)
      + 0.3 * (1.0 - Diff(a, b) as real / MaxLen(a, b) as real)
  {
    JaccardFacts(a, b);
  }

  /** A perfect score does not mean equal strings: it means the same characters and the
      same length (an anagram scores 1 too). */
  lemma ScoreOneIff(a: string, b: string)
    ensures Score(a, b) == 1.0 <==> a == b || (CharSet(a) == CharSet(b) && Units(a) == Units(b))
  {
    if a != b && Units(a) == Units(b) {
      assert !TooFarApart(a, b);
    }
  }

  /** Two strings with no character in common score at most 0.3, below the responder's
      0.55 threshold. */
  lemma DisjointScoresLow(a: string, b: string)
    requires CharSet(a) !! CharSet(b) && a != b
    ensures Score(a, b) <= 0.3
  {
  }

  /** The rejection bound depends only on the second string: two strings over the same
      characters, four and ten code units long ("aaaa" and "aaaaaaaaaa"), pass it one way
      round and fail it the other. */
  lemma ScoreAsymmetric(a: string, b: string)
    requires a != [] && CharSet(a) == CharSet(b)
    requires Units(a) == 4 && Units(b) == 10
    ensures Score(a, b) > 0.0
    ensures Score(b, a) == 0.0
  {
    assert a != b;
    assert Diff(a, b) == 6 && Diff(b, a) == 6;
    assert !TooFarApart(a, b);
    assert TooFarApart(b, a);
  }

  /** A character beyond U+FFFF, such as an emoji, adds two code units: "thanks😊" is eight
      long, not seven. */
  lemma EmojiCountsTwice(w: string, e: char)
    requires forall i :: 0 <= i < |w| ==> w[i] < '\U{10000}'
    requires e >= '\U{10000}'
    ensures Units(w + [e]) == |w| + 2
  {
    UnitsAstralLast(w, e);
  }
}
