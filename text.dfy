/** String vocabulary shared by the comment pre- and post-processing: Python's
    `strip` with a character class, literal occurrences and replacement, and
    "no character of one class right before one of another". */
module Text {
  import opened Common

  /** No character accepted by `p` is immediately followed by one accepted by `q`. */
  predicate NoPair(s: string, p: char -> bool, q: char -> bool)
  {
    forall i | 0 <= i < |s| - 1 :: !(p(s[i]) && q(s[i + 1]))
  }

  lemma NoPairSlice(s: string, a: nat, b: nat, p: char -> bool, q: char -> bool)
    requires a <= b <= |s| && NoPair(s, p, q)
    ensures NoPair(s[a..b], p, q)
  {
    forall i | 0 <= i < b - a - 1
      ensures !(p(s[a..b][i]) && q(s[a..b][i + 1]))
    {
      assert s[a..b][i] == s[a + i] && s[a..b][i + 1] == s[a + i + 1];
    }
  }

  /** The number of positions where a `p` character is immediately followed by
      a `q` character; zero exactly when there is no such pair. */
  function PairCount(s: string, p: char -> bool, q: char -> bool): (n: nat)
    ensures n == 0 <==> NoPair(s, p, q)
  {
    if |s| < 2 then 0
    else
      var n := (if p(s[0]) && q(s[1]) then 1 else 0) + PairCount(s[1..], p, q);
      assert NoPair(s, p, q) <==> !(p(s[0]) && q(s[1])) && NoPair(s[1..], p, q) by {
        assert forall i | 1 <= i < |s| - 1 :: s[i] == s[1..][i - 1] && s[i + 1] == s[1..][i];
      }
      n
  }

  /** A maximal run of `n` characters of `p` at the front holds `n - 1` pairs. */
  lemma PairCountSkip(s: string, p: char -> bool, q: char -> bool)
    requires s != [] && !p(s[0])
    ensures PairCount(s, p, q) == PairCount(s[1..], p, q)
  {
  }

  lemma {:induction false} PairCountRun(s: string, p: char -> bool, n: nat)
    requires 1 <= n <= |s| && (forall i | 0 <= i < n :: p(s[i])) && (n < |s| ==> !p(s[n]))
    ensures PairCount(s, p, p) == n - 1 + PairCount(s[n..], p, p)
    decreases n
  {
    if n > 1 {
      PairCountRun(s[1..], p, n - 1);
      assert s[1..][n - 1..] == s[n..];
    } else if |s| >= 2 {
      assert !p(s[1]);
    }
  }

  /** The length of the longest prefix of `s` that `p` accepts throughout. */
  function LeadingRun(s: string, p: char -> bool): (n: nat)
    ensures n <= |s|
    ensures forall i | 0 <= i < n :: p(s[i])
    ensures n < |s| ==> !p(s[n])
  {
    if s == [] || !p(s[0]) then 0 else 1 + LeadingRun(s[1..], p)
  }

  /** A prefix that `p` accepts throughout and that is followed by a character
      `p` rejects, or by nothing, is the leading run. */
  lemma LeadingRunUnique(s: string, p: char -> bool, n: nat)
    requires n <= |s| && forall i | 0 <= i < n :: p(s[i])
    requires n < |s| ==> !p(s[n])
    ensures LeadingRun(s, p) == n
  {
  }

  /** A leading run that ends inside `a` is the leading run of `a + b`. */
  lemma LeadingRunAppendInside(a: string, b: string, p: char -> bool)
    requires LeadingRun(a, p) < |a|
    ensures LeadingRun(a + b, p) == LeadingRun(a, p)
  {
    var n := LeadingRun(a, p);
    assert forall i | 0 <= i <= n :: (a + b)[i] == a[i];
    LeadingRunUnique(a + b, p, n);
  }

  /** When `p` accepts all of `a` and rejects the start of `b`, the leading run
      of `a + b` is `a`. */
  lemma LeadingRunAppendWhole(a: string, b: string, p: char -> bool)
    requires forall i | 0 <= i < |a| :: p(a[i])
    requires b == [] || !p(b[0])
    ensures LeadingRun(a + b, p) == |a|
  {
    assert forall i | 0 <= i < |a| :: (a + b)[i] == a[i];
    assert b != [] ==> (a + b)[|a|] == b[0];
    LeadingRunUnique(a + b, p, |a|);
  }

  /** The length of the longest suffix of `s` that `p` accepts throughout. */
  function TrailingRun(s: string, p: char -> bool): (n: nat)
    ensures n <= |s|
    ensures forall i | |s| - n <= i < |s| :: p(s[i])
    ensures n < |s| ==> !p(s[|s| - 1 - n])
  {
    if s == [] || !p(s[|s| - 1]) then 0 else 1 + TrailingRun(s[..|s| - 1], p)
  }

  /** `s` without its leading and trailing runs of characters `p` accepts, as
      `str.strip` does for whitespace and an anchored `re.sub` does for a class. */
  function Strip(s: string, p: char -> bool): (r: string)
    ensures r == [] || (!p(r[0]) && !p(r[|r| - 1]))
    ensures (s == [] || (!p(s[0]) && !p(s[|s| - 1]))) ==> r == s
    ensures r == [] <==> forall i | 0 <= i < |s| :: p(s[i])
  {
    var a := LeadingRun(s, p);
    if a == |s| then
      []
    else
      var b := |s| - TrailingRun(s, p);
      assert a < b;
      s[a..b]
  }

  /** What `Strip` keeps is one slice of `s`, and everything cut off on
      either side is in `p`. */
  lemma StripSlice(s: string, p: char -> bool)
    ensures exists a: nat, b: nat | a <= b <= |s| ::
              Strip(s, p) == s[a..b] && (forall i | 0 <= i < a :: p(s[i])) && (forall i | b <= i < |s| :: p(s[i]))
  {
    var a := LeadingRun(s, p);
    if a == |s| {
      assert Strip(s, p) == s[a..a];
    } else {
      var b := |s| - TrailingRun(s, p);
      assert Strip(s, p) == s[a..b];
    }
  }

  lemma StripKeepsNoPair(s: string, p: char -> bool, x: char -> bool, y: char -> bool)
    requires NoPair(s, x, y)
    ensures NoPair(Strip(s, p), x, y)
  {
    StripSlice(s, p);
    var a: nat, b: nat :| a <= b <= |s| && Strip(s, p) == s[a..b];
    NoPairSlice(s, a, b, x, y);
  }

  lemma {:induction false} SuffixSubsequence(a: string, s: string, k: nat)
    requires k <= |s| && IsSubsequence(a, s[k..])
    ensures IsSubsequence(a, s)
  {
    if k > 0 {
      assert s[k..] == s[1..][k - 1..];
      SuffixSubsequence(a, s[1..], k - 1);
      SubsequenceSkip(s[0], a, s[1..]);
      assert [s[0]] + s[1..] == s;
    }
  }

  lemma {:induction false} PrefixSubsequence(s: string, k: nat)
    requires k <= |s|
    ensures IsSubsequence(s[..k], s)
  {
    if k == 0 {
    } else {
      PrefixSubsequence(s[1..], k - 1);
      assert s[1..][..k - 1] == s[..k][1..];
      SubsequenceCons(s[0], s[..k][1..], s[1..]);
      assert [s[0]] + s[..k][1..] == s[..k];
      assert [s[0]] + s[1..] == s;
    }
  }

  lemma {:induction false} SubsequencePrefix(p: string, a: string, b: string)
    requires IsSubsequence(a, b)
    ensures IsSubsequence(p + a, p + b)
    decreases |p|
  {
    if p == [] {
      assert p + a == a && p + b == b;
    } else {
      SubsequencePrefix(p[1..], a, b);
      SubsequenceCons(p[0], p[1..] + a, p[1..] + b);
      assert [p[0]] + (p[1..] + a) == p + a;
      assert [p[0]] + (p[1..] + b) == p + b;
    }
  }

  /** Everything `Strip` keeps was in `s`, in order. */
  lemma StripSubsequence(s: string, p: char -> bool)
    ensures IsSubsequence(Strip(s, p), s)
  {
    StripSlice(s, p);
    var a: nat, b: nat :| a <= b <= |s| && Strip(s, p) == s[a..b];
    PrefixSubsequence(s[a..], b - a);
    assert s[a..][..b - a] == s[a..b];
    SuffixSubsequence(s[a..b], s, a);
  }

  /** `pat` occurs in `s` starting at `i`. */
  predicate OccursAt(s: string, pat: string, i: nat)
  {
    i + |pat| <= |s| && s[i..i + |pat|] == pat
  }

  predicate Occurs(s: string, pat: string)
  {
    exists i: nat | i <= |s| :: OccursAt(s, pat, i)
  }

  /** The start of the first occurrence of `pat` in `s`, as `str.find`. */
  function Find(s: string, pat: string): (r: Option<nat>)
    ensures r.Some? ==> OccursAt(s, pat, r.value) &&
                        forall j: nat | j < r.value :: !OccursAt(s, pat, j)
    ensures r.None? <==> !Occurs(s, pat)
  {
    if |s| < |pat| then
      assert forall j: nat | j <= |s| :: !OccursAt(s, pat, j);
      None
    else if s[..|pat|] == pat then Some(0)
    else
      var r := Find(s[1..], pat);
      assert forall j: nat | j + 1 <= |s| :: OccursAt(s, pat, j + 1) == OccursAt(s[1..], pat, j) by {
        forall j: nat | j + 1 <= |s| ensures OccursAt(s, pat, j + 1) == OccursAt(s[1..], pat, j) {
          OccursShift(s, pat, j);
        }
      }
      assert !OccursAt(s, pat, 0);
      if r.None? then
        assert forall j: nat | j <= |s| :: !OccursAt(s, pat, j) by {
          forall j: nat | j <= |s| ensures !OccursAt(s, pat, j) {
            if j > 0 {
              assert !OccursAt(s[1..], pat, j - 1);
            }
          }
        }
        None
      else
        assert forall j: nat | 0 < j < r.value + 1 :: !OccursAt(s, pat, j) by {
          forall j: nat | 0 < j < r.value + 1 ensures !OccursAt(s, pat, j) {
            assert !OccursAt(s[1..], pat, j - 1);
          }
        }
        Some(r.value + 1)
  }

  /** An occurrence in a suffix is an occurrence in the whole, shifted. */
  lemma OccursDrop(s: string, pat: string, n: nat, j: nat)
    requires n <= |s|
    ensures OccursAt(s[n..], pat, j) == OccursAt(s, pat, n + j)
  {
    if n + j + |pat| <= |s| {
      assert s[n..][j..j + |pat|] == s[n + j..n + j + |pat|];
    }
  }

  lemma OccursShift(s: string, pat: string, j: nat)
    requires j + 1 <= |s|
    ensures OccursAt(s, pat, j + 1) == OccursAt(s[1..], pat, j)
  {
    if j + 1 + |pat| <= |s| {
      assert s[j + 1..j + 1 + |pat|] == s[1..][j..j + |pat|];
    }
  }

  /** `s.replace(pat, "")` (and `re.sub` of a literal pattern with ""): every
      occurrence found scanning from the left is deleted. */
  function RemoveAll(s: string, pat: string): (r: string)
    requires |pat| > 0
    ensures IsSubsequence(r, s)
    ensures !Occurs(s, pat) ==> r == s
  {
    if s == [] then
      assert s[..0] == s;
      []
    else if OccursAt(s, pat, 0) then
      var r := RemoveAll(s[|pat|..], pat);
      SuffixSubsequence(r, s, |pat|);
      r
    else
      var r := RemoveAll(s[1..], pat);
      SubsequenceCons(s[0], r, s[1..]);
      assert [s[0]] + s[1..] == s;
      assert !Occurs(s, pat) ==> !Occurs(s[1..], pat) by {
        if Occurs(s[1..], pat) {
          var j: nat :| j <= |s[1..]| && OccursAt(s[1..], pat, j);
          OccursShift(s, pat, j);
          assert OccursAt(s, pat, j + 1);
        }
      }
      [s[0]] + r
  }

  lemma RemoveAllMatch(s: string, pat: string)
    requires |pat| > 0 && OccursAt(s, pat, 0)
    ensures RemoveAll(s, pat) == RemoveAll(s[|pat|..], pat)
  {
  }

  lemma RemoveAllKeep(s: string, pat: string)
    requires |pat| > 0 && s != [] && !OccursAt(s, pat, 0)
    ensures RemoveAll(s, pat) == [s[0]] + RemoveAll(s[1..], pat)
  {
  }

  lemma HeadTail(a: string, t: string)
    requires a != []
    ensures [a[0]] + (a[1..] + t) == a + t
  {
  }

  lemma SplitTail(a: string, pat: string, b: string)
    requires a != []
    ensures (a + pat + b)[0] == a[0] && (a + pat + b)[1..] == a[1..] + pat + b
  {
  }

  /** With no occurrence in `a` plus all but the last character of `pat`, no
      occurrence starts at the front of `a + pat + b`, and none starts in
      `a[1..]` plus all but the last character of `pat`. */
  lemma NoEarlierOccurrence(a: string, pat: string, b: string)
    requires |pat| > 0 && a != [] && !Occurs(a + pat[..|pat| - 1], pat)
    ensures !OccursAt(a + pat + b, pat, 0)
    ensures !Occurs(a[1..] + pat[..|pat| - 1], pat)
  {
    var s := a + pat + b;
    var x := a + pat[..|pat| - 1];
    var y := a[1..] + pat[..|pat| - 1];
    assert s[..|pat|] == x[..|pat|];
    assert !OccursAt(x, pat, 0);
    assert x[1..] == y;
    forall j: nat | j <= |y|
      ensures !OccursAt(y, pat, j)
    {
      OccursShift(x, pat, j);
      assert !OccursAt(x, pat, j + 1);
    }
  }

  /** `replace` scans from the left: text before the first occurrence is kept,
      that occurrence is deleted whole, and the scan resumes right after it. */
  lemma {:induction false} RemoveAllSplit(a: string, pat: string, b: string)
    requires |pat| > 0 && !Occurs(a + pat[..|pat| - 1], pat)
    ensures RemoveAll(a + pat + b, pat) == a + RemoveAll(b, pat)
    decreases |a|
  {
    var s := a + pat + b;
    if a == [] {
      assert s == pat + b && s[..|pat|] == pat && s[|pat|..] == b;
      RemoveAllMatch(s, pat);
    } else {
      SplitTail(a, pat, b);
      NoEarlierOccurrence(a, pat, b);
      RemoveAllKeep(s, pat);
      RemoveAllSplit(a[1..], pat, b);
      HeadTail(a, RemoveAll(b, pat));
    }
  }
}
