/** Whitespace trimming as Kotlin's `String.trim()` does it: drop every
    leading and every trailing character for which `Char.isWhitespace` holds. */
module Text {

  /** Kotlin's `Char.isWhitespace` on the JVM: the ASCII controls TAB, LF, VT,
      FF, CR and the separators U+001C..U+001F, plus the Unicode space,
      line and paragraph separators (categories Zs, Zl, Zp). No lemma of this
      module depends on which characters it names. */
  predicate IsWhitespace(c: char)
  {
    c == ' ' || ('\t' <= c <= '\r') || ('\U{1C}' <= c <= '\U{1F}')
    || c == '\U{A0}' || c == '\U{1680}' || ('\U{2000}' <= c <= '\U{200A}')
    || c == '\U{2028}' || c == '\U{2029}' || c == '\U{202F}' || c == '\U{205F}'
    || c == '\U{3000}'
  }

  predicate AllWhitespace(s: string)
  {
    forall k :: 0 <= k < |s| ==> IsWhitespace(s[k])
  }

  /** The length of the longest all-whitespace prefix of `s`. */
  function LeadingWhitespace(s: string): (n: nat)
    ensures n <= |s|
    ensures AllWhitespace(s[..n])
    ensures n < |s| ==> !IsWhitespace(s[n])
  {
    if s == [] || !IsWhitespace(s[0]) then 0
    else
      var m := LeadingWhitespace(s[1..]);
      assert s[..1 + m] == [s[0]] + s[1..][..m];
      1 + m
  }

  /** The length of the longest all-whitespace suffix of `s`. */
  function TrailingWhitespace(s: string): (n: nat)
    ensures n <= |s|
    ensures AllWhitespace(s[|s| - n..])
    ensures n < |s| ==> !IsWhitespace(s[|s| - 1 - n])
  {
    if s == [] || !IsWhitespace(s[|s| - 1]) then 0
    else
      var init := s[..|s| - 1];
      var m := TrailingWhitespace(init);
      assert s[|s| - (1 + m)..] == init[|init| - m..] + [s[|s| - 1]];
      1 + m
  }

  /** `s.trim()`: `s` with its leading and trailing whitespace removed.
      The result is empty exactly when `s` is all whitespace; otherwise it
      starts and ends with a non-whitespace character, it sits in `s` right
      after the leading whitespace, and only whitespace follows it. */
  function Trim(s: string): (r: string)
    ensures r == [] <==> AllWhitespace(s)
    ensures r != [] ==> !IsWhitespace(r[0]) && !IsWhitespace(r[|r| - 1])
    ensures LeadingWhitespace(s) + |r| <= |s|
    ensures r == s[LeadingWhitespace(s)..LeadingWhitespace(s) + |r|]
    ensures AllWhitespace(s[LeadingWhitespace(s) + |r|..])
  {
    var i := LeadingWhitespace(s);
    if i == |s| then
      assert s[..i] == s;
      []
    else
      SpansDisjoint(s);
      s[i..|s| - TrailingWhitespace(s)]
  }

  /** Unless `s` is all whitespace, its leading and trailing whitespace do
      not overlap. */
  lemma SpansDisjoint(s: string)
    requires LeadingWhitespace(s) < |s|
    ensures LeadingWhitespace(s) + TrailingWhitespace(s) < |s|
  {
    var i, j := LeadingWhitespace(s), |s| - TrailingWhitespace(s);
    assert !IsWhitespace(s[i]);
  }

  /** The leading whitespace of `s` is the one prefix that is all whitespace
      and is not followed by whitespace. */
  lemma LeadingWhitespaceUnique(s: string, n: nat)
    requires n <= |s| && AllWhitespace(s[..n])
    requires n < |s| ==> !IsWhitespace(s[n])
    ensures LeadingWhitespace(s) == n
  {
    var m := LeadingWhitespace(s);
    forall k | 0 <= k < n ensures IsWhitespace(s[k]) { assert s[..n][k] == s[k]; }
    forall k | 0 <= k < m ensures IsWhitespace(s[k]) { assert s[..m][k] == s[k]; }
  }

  /** Two ends of `s` that each are preceded by non-whitespace and followed
      by whitespace only are the same end. */
  lemma WhitespaceTailUnique(s: string, e1: nat, e2: nat)
    requires 0 < e1 <= |s| && AllWhitespace(s[e1..]) && !IsWhitespace(s[e1 - 1])
    requires 0 < e2 <= |s| && AllWhitespace(s[e2..]) && !IsWhitespace(s[e2 - 1])
    ensures e1 == e2
  {
    forall k | e1 <= k < |s| ensures IsWhitespace(s[k]) { assert s[e1..][k - e1] == s[k]; }
    forall k | e2 <= k < |s| ensures IsWhitespace(s[k]) { assert s[e2..][k - e2] == s[k]; }
  }

  /** Trimming is characterised independently of how it is computed: whenever
      `s` splits into whitespace, a part that is empty or starts and ends with
      non-whitespace, and whitespace again, `Trim` returns that middle part. */
  lemma TrimUnique(p: string, r: string, q: string)
    requires AllWhitespace(p) && AllWhitespace(q)
    requires r == [] || (!IsWhitespace(r[0]) && !IsWhitespace(r[|r| - 1]))
    ensures Trim(p + r + q) == r
  {
    var s := p + r + q;
    if r == [] {
      assert AllWhitespace(s) by {
        forall k | 0 <= k < |s| ensures IsWhitespace(s[k]) {
          if k < |p| { assert s[k] == p[k]; } else { assert s[k] == q[k - |p|]; }
        }
      }
    } else {
      assert s[..|p|] == p && s[|p|] == r[0];
      LeadingWhitespaceUnique(s, |p|);
      var t := Trim(s);
      var e := |p| + |r|;
      assert s[e..] == q && s[e - 1] == r[|r| - 1];
      assert s[|p| + |t| - 1] == t[|t| - 1];
      WhitespaceTailUnique(s, |p| + |t|, e);
    }
  }

  /** Trimming twice is trimming once. */
  lemma TrimIdempotent(s: string)
    ensures Trim(Trim(s)) == Trim(s)
  {
    var t := Trim(s);
    TrimUnique([], t, []);
    assert [] + t + [] == t;
  }
}
