/** `CommentPromptGenerator` of ai_server/util/comment_prompt.py: the fixed
    sequence of substitutions `preprocess` applies to a comment before it is put
    into the prompt, and the emotion guard and Korean name lookups of
    `create_prompt`. Each `re.sub` is modelled as a left-to-right scan with the
    same matching rule as the pattern. */
module CommentPrompt {
  import opened Common
  import opened Text

  predicate IsControl(c: char) { c == '\r' || c == '\n' || c == '\t' }

  predicate IsPunct(c: char) { c == '?' || c == '.' || c == '!' }

  predicate IsDot(c: char) { c == '.' }

  /** A precomposed Hangul syllable, the class `[가-힣]`. */
  predicate IsHangul(c: char) { '\U{AC00}' <= c <= '\U{D7A3}' }

  /** The class `[\s.,?!·~…]` stripped from both ends. */
  predicate IsTrim(c: char)
  {
    IsSpace(c) || c == '.' || c == ',' || c == '?' || c == '!' ||
    c == '\U{00B7}' || c == '~' || c == '\U{2026}'
  }

  /** The class of characters a URL match may contain after `http(s)://`:
      ASCII letters and digits and ``-._~:/?#[]@!$&'()*+,;=%``. */
  predicate IsUrlChar(c: char)
  {
    ('A' <= c <= 'Z') || ('a' <= c <= 'z') || ('0' <= c <= '9') ||
    c == '-' || c == '.' || c == '_' || c == '~' || c == ':' || c == '/' ||
    c == '?' || c == '#' || c == '[' || c == ']' || c == '@' || c == '!' ||
    c == '$' || c == '&' || c == '\'' || c == '(' || c == ')' || c == '*' ||
    c == '+' || c == ',' || c == ';' || c == '=' || c == '%'
  }

  /** `re.sub(r'\s+', '', s)`, as `fix_url` applies it to a URL match. */
  function DeleteSpaces(s: string): (r: string)
    ensures (forall i | 0 <= i < |s| :: !IsSpace(s[i])) ==> r == s
    ensures forall i | 0 <= i < |r| :: !IsSpace(r[i])
  {
    if s == [] then []
    else if IsSpace(s[0]) then DeleteSpaces(s[1..])
    else [s[0]] + DeleteSpaces(s[1..])
  }

  lemma {:induction false} DeleteSpacesAppend(a: string, b: string)
    ensures DeleteSpaces(a + b) == DeleteSpaces(a) + DeleteSpaces(b)
    decreases |a|
  {
    if a == [] {
      assert a + b == b;
    } else {
      var ab := a + b;
      assert ab[0] == a[0] && ab[1..] == a[1..] + b;
      DeleteSpacesAppend(a[1..], b);
      if !IsSpace(a[0]) {
        assert DeleteSpaces(a) + DeleteSpaces(b) == [a[0]] + (DeleteSpaces(a[1..]) + DeleteSpaces(b));
      }
    }
  }

  /** A leading whitespace run contributes nothing once whitespace is deleted. */
  lemma {:induction false} DeleteSpacesSkip(s: string, n: nat)
    requires n <= |s| && forall i | 0 <= i < n :: IsSpace(s[i])
    ensures DeleteSpaces(s) == DeleteSpaces(s[n..])
    decreases n
  {
    if n > 0 {
      assert forall i | 0 <= i < n - 1 :: s[1..][i] == s[i + 1];
      DeleteSpacesSkip(s[1..], n - 1);
      assert s[1..][n - 1..] == s[n..];
    }
  }

  // ---- step 1: line breaks and tabs, then whitespace runs ----

  /** `re.sub(r'[\r\n\t]', ' ', s)`. */
  function ControlToSpace(s: string): (r: string)
    ensures |r| == |s|
    ensures forall i | 0 <= i < |r| :: !IsControl(r[i])
    ensures forall i | 0 <= i < |r| :: r[i] == s[i] || (IsControl(s[i]) && r[i] == ' ')
  {
    if s == [] then []
    else [if IsControl(s[0]) then ' ' else s[0]] + ControlToSpace(s[1..])
  }

  /** `re.sub(r'\s+', ' ', s)`: every maximal whitespace run becomes one space. */
  function Collapse(s: string): (r: string)
    ensures forall i | 0 <= i < |r| :: IsSpace(r[i]) ==> r[i] == ' '
    ensures NoPair(r, IsSpace, IsSpace)
    ensures s == [] <==> r == []
    ensures s != [] && !IsSpace(s[0]) ==> r[0] == s[0]
    ensures s != [] && IsSpace(s[0]) ==> r[0] == ' '
    decreases |s|
  {
    if s == [] then []
    else if IsSpace(s[0]) then
      var n := LeadingRun(s, IsSpace);
      [' '] + Collapse(s[n..])
    else [s[0]] + Collapse(s[1..])
  }

  lemma {:induction false} CollapseLast(s: string)
    requires s != [] && !IsSpace(s[|s| - 1])
    ensures Collapse(s)[|Collapse(s)| - 1] == s[|s| - 1]
    decreases |s|
  {
    if IsSpace(s[0]) {
      var n := LeadingRun(s, IsSpace);
      CollapseLast(s[n..]);
    } else if |s| > 1 {
      CollapseLast(s[1..]);
    }
  }

  /** A whitespace run on its own collapses to one space. */
  lemma CollapseRun(w: string)
    requires w != [] && forall i | 0 <= i < |w| :: IsSpace(w[i])
    ensures Collapse(w) == " "
  {
    LeadingRunUnique(w, IsSpace, |w|);
    assert w[|w|..] == [];
  }

  /** The bookkeeping step of the append lemmas: putting the same prefix `p`
      before both halves of an append. */
  lemma PrefixAppend(p: string, whole: string, rest: string, left: string, leftRest: string, right: string)
    requires whole == p + rest && rest == leftRest + right && left == p + leftRest
    ensures whole == left + right
  {
  }

  lemma ConsAssoc(x: char, u: string, v: string)
    ensures [x] + (u + v) == [x] + u + v
  {
  }

  lemma AppendAssoc(t: string, u: string, v: string)
    ensures t + (u + v) == t + u + v
  {
  }

  /** Two pieces that do not meet inside a whitespace run collapse piece by
      piece: every run is replaced where it stands. */
  lemma {:induction false} CollapseAppend(a: string, b: string)
    requires a == [] || b == [] || !IsSpace(a[|a| - 1]) || !IsSpace(b[0])
    ensures Collapse(a + b) == Collapse(a) + Collapse(b)
    decreases |a|
  {
    if a == [] {
      assert a + b == b;
    } else if b == [] {
      assert a + b == a;
    } else if !IsSpace(a[0]) {
      CollapseAppend(a[1..], b);
      CollapseHeadStep(a, b);
    } else {
      var n := LeadingRun(a, IsSpace);
      if n < |a| {
        assert a[n..][|a[n..]| - 1] == a[|a| - 1];
        CollapseAppend(a[n..], b);
        CollapseRunStep(a, b, n);
      } else {
        assert forall i | 0 <= i < |a| :: IsSpace(a[i]);
        CollapseWholeRun(a, b);
      }
    }
  }

  /** `CollapseAppend` when `a` starts with a character that is kept. */
  lemma CollapseHeadStep(a: string, b: string)
    requires a != [] && !IsSpace(a[0])
    requires Collapse(a[1..] + b) == Collapse(a[1..]) + Collapse(b)
    ensures Collapse(a + b) == Collapse(a) + Collapse(b)
  {
    AppendTail(a, b);
    CollapseUnfoldKept(a + b);
    CollapseUnfoldKept(a);
    PrefixAppend([a[0]], Collapse(a + b), Collapse(a[1..] + b), Collapse(a), Collapse(a[1..]), Collapse(b));
  }

  /** `CollapseAppend` when `a` starts with a whitespace run that ends inside `a`. */
  lemma CollapseRunStep(a: string, b: string, n: nat)
    requires 0 < n < |a| && IsSpace(a[0]) && n == LeadingRun(a, IsSpace)
    requires Collapse(a[n..] + b) == Collapse(a[n..]) + Collapse(b)
    ensures Collapse(a + b) == Collapse(a) + Collapse(b)
  {
    AppendTail(a, b);
    LeadingRunAppendInside(a, b, IsSpace);
    AppendDrop(a, b, n);
    CollapseUnfoldRun(a + b);
    CollapseUnfoldRun(a);
    PrefixAppend([' '], Collapse(a + b), Collapse(a[n..] + b), Collapse(a), Collapse(a[n..]), Collapse(b));
  }

  /** `CollapseAppend` when `a` is one whitespace run and `b` does not start one. */
  lemma CollapseWholeRun(a: string, b: string)
    requires a != [] && forall i | 0 <= i < |a| :: IsSpace(a[i])
    requires b != [] && !IsSpace(b[0])
    ensures Collapse(a + b) == Collapse(a) + Collapse(b)
  {
    AppendTail(a, b);
    LeadingRunAppendWhole(a, b, IsSpace);
    AppendDrop(a, b, |a|);
    assert a[|a|..] + b == b;
    CollapseUnfoldRun(a + b);
    CollapseRun(a);
  }

  /** One step of `Collapse` over a character that is kept. */
  lemma CollapseUnfoldKept(s: string)
    requires s != [] && !IsSpace(s[0])
    ensures Collapse(s) == [s[0]] + Collapse(s[1..])
  {
  }

  /** One step of `Collapse` over a leading whitespace run. */
  lemma CollapseUnfoldRun(s: string)
    requires s != [] && IsSpace(s[0])
    ensures Collapse(s) == [' '] + Collapse(s[LeadingRun(s, IsSpace)..])
  {
  }

  /** Collapsing whitespace creates no new pair of a `p` character before a
      non-space `q` character, when `p` treats all whitespace alike. */
  lemma {:induction false} CollapseKeepsNoPair(s: string, p: char -> bool, q: char -> bool)
    requires NoPair(s, p, q)
    requires forall c :: q(c) ==> !IsSpace(c)
    requires forall c :: IsSpace(c) ==> p(c) == p(' ')
    ensures NoPair(Collapse(s), p, q)
    decreases |s|
  {
    if s != [] {
      var r := Collapse(s);
      if IsSpace(s[0]) {
        var n := LeadingRun(s, IsSpace);
        NoPairSlice(s, n, |s|, p, q);
        assert s[n..|s|] == s[n..];
        CollapseKeepsNoPair(s[n..], p, q);
        var t := Collapse(s[n..]);
        assert r == [' '] + t;
        if t != [] {
          assert t[0] == s[n];
          assert IsSpace(s[n - 1]);
          assert !(p(s[n - 1]) && q(s[n]));
        }
        assert forall i | 1 <= i < |r| - 1 :: r[i] == t[i - 1] && r[i + 1] == t[i];
      } else {
        NoPairSlice(s, 1, |s|, p, q);
        assert s[1..|s|] == s[1..];
        CollapseKeepsNoPair(s[1..], p, q);
        var t := Collapse(s[1..]);
        assert r == [s[0]] + t;
        if t != [] && q(t[0]) {
          assert t[0] == s[1];
        }
        assert forall i | 1 <= i < |r| - 1 :: r[i] == t[i - 1] && r[i + 1] == t[i];
      }
    }
  }

  // ---- step 2: URLs ----

  /** The length of the `https?://` prefix at the start of `s`, if any. */
  function SchemeLength(s: string): (n: nat)
  {
    if |s| >= 8 && s[..8] == "https://" then 8
    else if |s| >= 7 && s[..7] == "http://" then 7
    else 0
  }

  /** The length of the match of `https?://[class]+` at the start of `s`:
      the scheme, then the longest run of URL characters, which must not be empty. */
  function UrlMatch(s: string): (r: Option<nat>)
    ensures r.Some? ==> SchemeLength(s) < r.value <= |s|
  {
    var k := SchemeLength(s);
    if k == 0 then None
    else
      var run := LeadingRun(s[k..], IsUrlChar);
      if run == 0 then None else Some(k + run)
  }

  /** A match exists exactly when a scheme is followed by a URL character, and
      it is greedy: every character after the scheme up to the end of the match
      is a URL character, and the match stops at the end of `s` or at a
      character that is not one. */
  lemma UrlMatchExact(s: string)
    ensures UrlMatch(s).Some? <==> 0 < SchemeLength(s) < |s| && IsUrlChar(s[SchemeLength(s)])
    ensures UrlMatch(s).Some? ==>
              (forall i | SchemeLength(s) <= i < UrlMatch(s).value :: IsUrlChar(s[i])) &&
              (UrlMatch(s).value == |s| || !IsUrlChar(s[UrlMatch(s).value]))
  {
    var k := SchemeLength(s);
    if 0 < k {
      var t := s[k..];
      var run := LeadingRun(t, IsUrlChar);
      assert forall i | k <= i < |s| :: s[i] == t[i - k];
      if k < |s| {
        assert s[k] == t[0];
      }
    }
  }

  /** A URL match holds no whitespace. */
  lemma UrlMatchHasNoSpace(s: string)
    requires UrlMatch(s).Some?
    ensures forall i | 0 <= i < UrlMatch(s).value :: !IsSpace(s[i])
  {
    var k := SchemeLength(s);
    var m := UrlMatch(s).value;
    forall i | 0 <= i < m
      ensures !IsSpace(s[i])
    {
      if i < k {
        assert s[i] == s[..k][i];
      } else {
        assert s[i] == s[k..][i - k];
      }
    }
  }

  /** No URL match starts at a character other than `h`. */
  lemma NoUrlWithoutScheme(s: string)
    requires s != [] && s[0] != 'h'
    ensures UrlMatch(s).None?
  {
    if |s| >= 8 {
      assert s[..8][0] != "https://"[0];
    }
    if |s| >= 7 {
      assert s[..7][0] != "http://"[0];
    }
  }

  /** The substitution of each URL match by `fix_url`: brackets around the
      match with its whitespace removed. */
  function WrapUrls(s: string): (r: string)
    decreases |s|
  {
    if s == [] then []
    else
      match UrlMatch(s)
      case Some(m) => "[" + DeleteSpaces(s[..m]) + "]" + WrapUrls(s[m..])
      case None => [s[0]] + WrapUrls(s[1..])
  }

  /** A URL match is wrapped in brackets with its content unchanged: the class
      admits no whitespace, so `fix_url` removes nothing. */
  lemma WrapUrlsKeepsContent(s: string)
    requires UrlMatch(s).Some?
    ensures var m := UrlMatch(s).value;
            WrapUrls(s) == "[" + s[..m] + "]" + WrapUrls(s[m..])
  {
    UrlMatchHasNoSpace(s);
  }

  // ---- step 3: whitespace before `?`, `.` or `!` ----

  /** `re.sub(r'\s+([?.!])', r'\1', s)`: a whitespace run right before one of
      `?.!` is deleted; other runs stay. */
  function DropSpaceBeforePunct(s: string): (r: string)
    ensures NoPair(r, IsSpace, IsPunct)
    ensures s != [] && !IsSpace(s[0]) ==> r != [] && r[0] == s[0]
    decreases |s|
  {
    if s == [] then []
    else if IsSpace(s[0]) then
      var n := LeadingRun(s, IsSpace);
      if n < |s| && IsPunct(s[n]) then DropSpaceBeforePunct(s[n..])
      else
        var t := DropSpaceBeforePunct(s[n..]);
        var r := s[..n] + t;
        assert forall i | 0 <= i < n :: r[i] == s[i];
        assert forall i | n <= i < |r| :: r[i] == t[i - n];
        r
    else
      var t := DropSpaceBeforePunct(s[1..]);
      var r := [s[0]] + t;
      assert forall i | 1 <= i < |r| :: r[i] == t[i - 1];
      r
  }

  /** Two pieces, the first not ending in whitespace, are handled piece by
      piece. */
  lemma {:induction false} DropSpaceBeforePunctAppend(a: string, b: string)
    requires a == [] || !IsSpace(a[|a| - 1])
    ensures DropSpaceBeforePunct(a + b) == DropSpaceBeforePunct(a) + DropSpaceBeforePunct(b)
    decreases |a|
  {
    if a == [] {
      assert a + b == b;
    } else if !IsSpace(a[0]) {
      DropSpaceBeforePunctAppend(a[1..], b);
      DropHeadStep(a, b);
    } else {
      var n := LeadingRun(a, IsSpace);
      assert a[n..][|a[n..]| - 1] == a[|a| - 1];
      DropSpaceBeforePunctAppend(a[n..], b);
      DropRunStep(a, b, n);
    }
  }

  /** `DropSpaceBeforePunctAppend` when `a` starts with a character that is kept. */
  lemma DropHeadStep(a: string, b: string)
    requires a != [] && !IsSpace(a[0])
    requires DropSpaceBeforePunct(a[1..] + b) == DropSpaceBeforePunct(a[1..]) + DropSpaceBeforePunct(b)
    ensures DropSpaceBeforePunct(a + b) == DropSpaceBeforePunct(a) + DropSpaceBeforePunct(b)
  {
    AppendTail(a, b);
    DropUnfoldKept(a + b);
    DropUnfoldKept(a);
    PrefixAppend([a[0]], DropSpaceBeforePunct(a + b), DropSpaceBeforePunct(a[1..] + b),
                 DropSpaceBeforePunct(a), DropSpaceBeforePunct(a[1..]), DropSpaceBeforePunct(b));
  }

  /** `DropSpaceBeforePunctAppend` when `a` starts with a whitespace run that
      ends inside `a`. */
  lemma DropRunStep(a: string, b: string, n: nat)
    requires 0 < n < |a| && IsSpace(a[0]) && n == LeadingRun(a, IsSpace)
    requires DropSpaceBeforePunct(a[n..] + b) == DropSpaceBeforePunct(a[n..]) + DropSpaceBeforePunct(b)
    ensures DropSpaceBeforePunct(a + b) == DropSpaceBeforePunct(a) + DropSpaceBeforePunct(b)
  {
    AppendTail(a, b);
    LeadingRunAppendInside(a, b, IsSpace);
    AppendDrop(a, b, n);
    DropUnfoldRun(a + b, n);
    DropUnfoldRun(a, n);
    if !IsPunct(a[n]) {
      AppendAssoc(a[..n], DropSpaceBeforePunct(a[n..]), DropSpaceBeforePunct(b));
    }
  }

  /** One step of `DropSpaceBeforePunct` over a character that is kept. */
  lemma DropUnfoldKept(s: string)
    requires s != [] && !IsSpace(s[0])
    ensures DropSpaceBeforePunct(s) == [s[0]] + DropSpaceBeforePunct(s[1..])
  {
  }

  /** One step of `DropSpaceBeforePunct` over a whitespace run that ends inside `s`. */
  lemma DropUnfoldRun(s: string, n: nat)
    requires 0 < n < |s| && IsSpace(s[0]) && n == LeadingRun(s, IsSpace)
    ensures DropSpaceBeforePunct(s) ==
            if IsPunct(s[n]) then DropSpaceBeforePunct(s[n..]) else s[..n] + DropSpaceBeforePunct(s[n..])
  {
  }

  /** A whitespace run followed by the end or by a character that is neither
      whitespace nor `?.!` is kept as it is. */
  lemma DropKeepsRun(w: string, b: string)
    requires w != [] && forall i | 0 <= i < |w| :: IsSpace(w[i])
    requires b == [] || (!IsSpace(b[0]) && !IsPunct(b[0]))
    ensures DropSpaceBeforePunct(w + b) == w + DropSpaceBeforePunct(b)
  {
    AppendTail(w, b);
    LeadingRunAppendWhole(w, b, IsSpace);
    AppendDrop(w, b, |w|);
    assert w[|w|..] + b == b;
    if b != [] {
      DropUnfoldRun(w + b, |w|);
    }
  }

  /** A whitespace run followed by `?`, `.` or `!` is deleted. */
  lemma DropsRunBeforePunct(w: string, b: string)
    requires w != [] && forall i | 0 <= i < |w| :: IsSpace(w[i])
    requires b != [] && IsPunct(b[0])
    ensures DropSpaceBeforePunct(w + b) == DropSpaceBeforePunct(b)
  {
    AppendTail(w, b);
    LeadingRunAppendWhole(w, b, IsSpace);
    AppendDrop(w, b, |w|);
    assert w[|w|..] + b == b;
    DropUnfoldRun(w + b, |w|);
  }

  // ---- step 4: a space between `.` and a Hangul syllable ----

  /** `re.sub(r'(\.)([가-힣])', r'\1 \2', s)`. */
  function SpaceAfterDot(s: string): (r: string)
    ensures NoPair(r, IsDot, IsHangul)
    ensures s != [] ==> r != [] && r[0] == s[0]
    decreases |s|
  {
    if s == [] then []
    else if |s| >= 2 && s[0] == '.' && IsHangul(s[1]) then
      var t := SpaceAfterDot(s[2..]);
      var r := ['.', ' ', s[1]] + t;
      assert forall i | 3 <= i < |r| :: r[i] == t[i - 3];
      r
    else
      var t := SpaceAfterDot(s[1..]);
      var r := [s[0]] + t;
      assert forall i | 1 <= i < |r| :: r[i] == t[i - 1];
      r
  }

  lemma DotSpaceDeleted(h: char, t: string)
    requires IsHangul(h)
    ensures DeleteSpaces(['.', ' ', h] + t) == ['.', h] + DeleteSpaces(t)
    ensures DeleteSpaces(['.', h] + t) == ['.', h] + DeleteSpaces(t)
  {
    DeleteSpacesAppend(['.', ' ', h], t);
    DeleteSpacesAppend(['.', h], t);
    assert ['.', ' ', h][1..] == [' ', h] && [' ', h][1..] == [h] && ['.', h][1..] == [h];
  }

  lemma {:induction false} SpaceAfterDotKeepsNoSpaceBeforePunct(s: string)
    requires NoPair(s, IsSpace, IsPunct)
    ensures NoPair(SpaceAfterDot(s), IsSpace, IsPunct)
    decreases |s|
  {
    if s != [] {
      var r := SpaceAfterDot(s);
      if |s| >= 2 && s[0] == '.' && IsHangul(s[1]) {
        NoPairSlice(s, 2, |s|, IsSpace, IsPunct);
        assert s[2..|s|] == s[2..];
        SpaceAfterDotKeepsNoSpaceBeforePunct(s[2..]);
        var t := SpaceAfterDot(s[2..]);
        assert forall i | 3 <= i < |r| :: r[i] == t[i - 3];
      } else {
        NoPairSlice(s, 1, |s|, IsSpace, IsPunct);
        assert s[1..|s|] == s[1..];
        SpaceAfterDotKeepsNoSpaceBeforePunct(s[1..]);
        var t := SpaceAfterDot(s[1..]);
        assert forall i | 1 <= i < |r| :: r[i] == t[i - 1];
        if t != [] {
          assert t[0] == s[1];
        }
      }
    }
  }

  // ---- what each pass keeps ----

  /** Collapsing keeps every character other than whitespace, in order, and
      drops one character for each whitespace character that follows another. */
  lemma {:induction false} CollapseKeepsText(s: string)
    ensures DeleteSpaces(Collapse(s)) == DeleteSpaces(s)
    ensures |Collapse(s)| == |s| - PairCount(s, IsSpace, IsSpace)
    decreases |s|
  {
    if s != [] {
      if IsSpace(s[0]) {
        var n := LeadingRun(s, IsSpace);
        CollapseKeepsText(s[n..]);
        DeleteSpacesSkip(s, n);
        PairCountRun(s, IsSpace, n);
        DeleteSpacesAppend([' '], Collapse(s[n..]));
      } else {
        CollapseKeepsText(s[1..]);
        DeleteSpacesAppend([s[0]], Collapse(s[1..]));
      }
    }
  }

  /** Text whose whitespace is single spaces is left as it is by collapsing. */
  lemma {:induction false} CollapseIdentity(s: string)
    requires forall i | 0 <= i < |s| :: IsSpace(s[i]) ==> s[i] == ' '
    requires NoPair(s, IsSpace, IsSpace)
    ensures Collapse(s) == s
    decreases |s|
  {
    if s != [] {
      NoPairSlice(s, 1, |s|, IsSpace, IsSpace);
      assert s[1..|s|] == s[1..];
      CollapseIdentity(s[1..]);
      if IsSpace(s[0]) {
        assert LeadingRun(s, IsSpace) == 1 by {
          if |s| > 1 {
            assert !IsSpace(s[1]);
          }
        }
      }
    }
  }

  /** Wrapping URLs only inserts brackets: the text is kept, in order. */
  lemma {:induction false} WrapUrlsKeepsText(s: string)
    ensures IsSubsequence(s, WrapUrls(s))
    decreases |s|
  {
    if s != [] {
      match UrlMatch(s)
      case Some(m) =>
        WrapUrlsKeepsText(s[m..]);
        WrappedMatchStep(s, m);
      case None =>
        WrapUrlsKeepsText(s[1..]);
        UnwrappedStep(s);
    }
  }

  lemma WrappedMatchStep(s: string, m: nat)
    requires s != [] && UrlMatch(s) == Some(m)
    requires IsSubsequence(s[m..], WrapUrls(s[m..]))
    ensures IsSubsequence(s, WrapUrls(s))
  {
    TakeDropJoin(s, m);
    UrlMatchHasNoSpace(s);
    WrappedMatchKeepsText(s[..m], s[m..], WrapUrls(s[m..]));
  }

  lemma UnwrappedStep(s: string)
    requires s != [] && UrlMatch(s).None?
    requires IsSubsequence(s[1..], WrapUrls(s[1..]))
    ensures IsSubsequence(s, WrapUrls(s))
  {
    SubsequenceCons(s[0], s[1..], WrapUrls(s[1..]));
    HeadJoin(s);
  }

  lemma WrappedMatchKeepsText(u: string, v: string, t: string)
    requires forall i | 0 <= i < |u| :: !IsSpace(u[i])
    requires IsSubsequence(v, t)
    ensures IsSubsequence(u + v, "[" + DeleteSpaces(u) + "]" + t)
  {
    SubsequenceSkip(']', v, t);
    SubsequencePrefix(u, v, "]" + t);
    SubsequenceSkip('[', u + v, u + ("]" + t));
    assert "[" + (u + ("]" + t)) == "[" + u + "]" + t;
  }

  /** Text in which no URL match starts is left as it is. */
  lemma {:induction false} WrapUrlsIdentity(s: string)
    requires forall i | 0 <= i < |s| :: UrlMatch(s[i..]).None?
    ensures WrapUrls(s) == s
    decreases |s|
  {
    if s != [] {
      assert s[0..] == s;
      assert forall i | 0 <= i < |s| - 1 :: s[1..][i..] == s[i + 1..];
      WrapUrlsIdentity(s[1..]);
    }
  }

  /** Dropping whitespace before `?.!` deletes whitespace and nothing else. */
  lemma {:induction false} DropSpaceBeforePunctKeepsText(s: string)
    ensures IsSubsequence(DropSpaceBeforePunct(s), s)
    ensures DeleteSpaces(DropSpaceBeforePunct(s)) == DeleteSpaces(s)
    decreases |s|
  {
    if s != [] {
      if IsSpace(s[0]) {
        var n := LeadingRun(s, IsSpace);
        DropSpaceBeforePunctKeepsText(s[n..]);
        KeptAfterSpaceRun(s, n, DropSpaceBeforePunct(s[n..]));
      } else {
        DropSpaceBeforePunctKeepsText(s[1..]);
        KeptAfterHead(s, DropSpaceBeforePunct(s[1..]));
      }
    }
  }

  /** Text kept from what follows a whitespace run is kept from the whole,
      with or without the run in front of it. */
  lemma KeptAfterSpaceRun(s: string, n: nat, t: string)
    requires n <= |s| && forall i | 0 <= i < n :: IsSpace(s[i])
    requires IsSubsequence(t, s[n..]) && DeleteSpaces(t) == DeleteSpaces(s[n..])
    ensures IsSubsequence(t, s) && DeleteSpaces(t) == DeleteSpaces(s)
    ensures IsSubsequence(s[..n] + t, s) && DeleteSpaces(s[..n] + t) == DeleteSpaces(s)
  {
    DeleteSpacesSkip(s, n);
    SuffixSubsequence(t, s, n);
    KeptWithSpaceRun(s[..n], s[n..], t);
    assert s[..n] + s[n..] == s;
  }

  lemma KeptWithSpaceRun(w: string, u: string, t: string)
    requires forall i | 0 <= i < |w| :: IsSpace(w[i])
    requires IsSubsequence(t, u)
    ensures IsSubsequence(w + t, w + u) && DeleteSpaces(w + t) == DeleteSpaces(t)
  {
    SubsequencePrefix(w, t, u);
    SplitAt(w, t);
    DeleteSpacesSkip(w + t, |w|);
  }

  /** A character other than whitespace in front keeps what is kept. */
  lemma KeptAfterHead(s: string, t: string)
    requires s != [] && IsSubsequence(t, s[1..]) && DeleteSpaces(t) == DeleteSpaces(s[1..])
    ensures IsSubsequence([s[0]] + t, s) && DeleteSpaces([s[0]] + t) == DeleteSpaces(s)
  {
    SubsequenceCons(s[0], t, s[1..]);
    HeadJoin(s);
    DeleteSpacesAppend([s[0]], t);
    DeleteSpacesAppend([s[0]], s[1..]);
  }

  /** Text with no whitespace right before `?.!` is left as it is. */
  lemma {:induction false} DropSpaceBeforePunctIdentity(s: string)
    requires NoPair(s, IsSpace, IsPunct)
    ensures DropSpaceBeforePunct(s) == s
    decreases |s|
  {
    if s != [] {
      var n := if IsSpace(s[0]) then LeadingRun(s, IsSpace) else 1;
      NoPairSlice(s, n, |s|, IsSpace, IsPunct);
      assert s[n..|s|] == s[n..];
      DropSpaceBeforePunctIdentity(s[n..]);
      if IsSpace(s[0]) && n < |s| {
        assert IsSpace(s[n - 1]);
      }
      if !IsSpace(s[0]) {
        HeadJoin(s);
      } else {
        assert s[..n] + s[n..] == s;
      }
    }
  }

  /** The `.` step only inserts spaces, one for each `.` that a Hangul
      syllable follows. */
  lemma {:induction false} SpaceAfterDotInsertsSpaces(s: string)
    ensures IsSubsequence(s, SpaceAfterDot(s))
    ensures DeleteSpaces(SpaceAfterDot(s)) == DeleteSpaces(s)
    decreases |s|
  {
    if s != [] {
      if |s| >= 2 && s[0] == '.' && IsHangul(s[1]) {
        SpaceAfterDotInsertsSpaces(s[2..]);
        InsertedAfterDot(s, SpaceAfterDot(s[2..]));
      } else {
        SpaceAfterDotInsertsSpaces(s[1..]);
        InsertedAfterHead(s, SpaceAfterDot(s[1..]));
      }
    }
  }

  /** A space put after a leading `.` keeps what inserting only spaces keeps. */
  lemma InsertedAfterDot(s: string, t: string)
    requires |s| >= 2 && s[0] == '.' && IsHangul(s[1])
    requires IsSubsequence(s[2..], t) && DeleteSpaces(t) == DeleteSpaces(s[2..])
    ensures IsSubsequence(s, ['.', ' ', s[1]] + t)
    ensures DeleteSpaces(['.', ' ', s[1]] + t) == DeleteSpaces(s)
  {
    TwoHeadJoin(s);
    InsertedSpaceSubsequence(s[1], s[2..], t);
    DotSpaceDeleted(s[1], t);
    DotSpaceDeleted(s[1], s[2..]);
  }

  lemma InsertedSpaceSubsequence(h: char, u: string, t: string)
    requires IsSubsequence(u, t)
    ensures IsSubsequence(['.', h] + u, ['.', ' ', h] + t)
  {
    SubsequenceCons(h, u, t);
    SubsequenceSkip(' ', [h] + u, [h] + t);
    SubsequenceCons('.', [h] + u, [' '] + ([h] + t));
    assert ['.'] + ([h] + u) == ['.', h] + u;
    assert ['.'] + ([' '] + ([h] + t)) == ['.', ' ', h] + t;
  }

  /** A leading character kept as it is keeps what inserting only spaces keeps. */
  lemma InsertedAfterHead(s: string, t: string)
    requires s != [] && IsSubsequence(s[1..], t) && DeleteSpaces(t) == DeleteSpaces(s[1..])
    ensures IsSubsequence(s, [s[0]] + t) && DeleteSpaces([s[0]] + t) == DeleteSpaces(s)
  {
    SubsequenceCons(s[0], s[1..], t);
    HeadJoin(s);
    DeleteSpacesAppend([s[0]], t);
    DeleteSpacesAppend([s[0]], s[1..]);
  }

  lemma {:induction false} SpaceAfterDotLength(s: string)
    ensures |SpaceAfterDot(s)| == |s| + PairCount(s, IsDot, IsHangul)
    decreases |s|
  {
    if s != [] {
      if |s| >= 2 && s[0] == '.' && IsHangul(s[1]) {
        SpaceAfterDotLength(s[2..]);
        PairCountSkip(s[1..], IsDot, IsHangul);
        assert s[1..][1..] == s[2..];
      } else {
        SpaceAfterDotLength(s[1..]);
      }
    }
  }

  /** A `.` before anything but a Hangul syllable (a letter or a digit, say)
      is left as it is. */
  lemma {:induction false} SpaceAfterDotIdentity(s: string)
    requires NoPair(s, IsDot, IsHangul)
    ensures SpaceAfterDot(s) == s
    decreases |s|
  {
    if s != [] {
      NoPairSlice(s, 1, |s|, IsDot, IsHangul);
      assert s[1..|s|] == s[1..];
      SpaceAfterDotIdentity(s[1..]);
      HeadJoin(s);
    }
  }

  // ---- the whole pass ----

  /** Steps 1 to 4 of `preprocess`. */
  function Spaced(s: string): (r: string)
    ensures NoPair(r, IsSpace, IsPunct)
    ensures NoPair(r, IsDot, IsHangul)
  {
    var dropped := DropSpaceBeforePunct(WrapUrls(Collapse(ControlToSpace(s))));
    SpaceAfterDotKeepsNoSpaceBeforePunct(dropped);
    SpaceAfterDot(dropped)
  }

  /** The final `strip()` removes nothing: once the class `[\s.,?!·~…]` is
      stripped, collapsing keeps the ends, which are not whitespace. */
  lemma {:induction false} FinalStrip(t: string)
    requires t == [] || (!IsTrim(t[0]) && !IsTrim(t[|t| - 1]))
    ensures Strip(Collapse(t), IsSpace) == Collapse(t)
    ensures var c := Collapse(t); c == [] || (!IsTrim(c[0]) && !IsTrim(c[|c| - 1]))
  {
    if t != [] {
      CollapseLast(t);
    }
  }

  /** `preprocess` on a string: steps 1 to 4, then the class `[\s.,?!·~…]`
      stripped from both ends, whitespace runs collapsed and the result
      stripped. The result has no line break or tab, no two whitespace
      characters in a row, nothing of the class at either end, no whitespace
      before `?.!` and no `.` directly before a Hangul syllable. */
  function Preprocess(s: string): (r: string)
    ensures forall i | 0 <= i < |r| :: !IsControl(r[i])
    ensures NoPair(r, IsSpace, IsSpace)
    ensures r == [] || (!IsTrim(r[0]) && !IsTrim(r[|r| - 1]))
    ensures NoPair(r, IsSpace, IsPunct)
    ensures NoPair(r, IsDot, IsHangul)
  {
    FinishNormalForm(Spaced(s));
    Strip(Collapse(Strip(Spaced(s), IsTrim)), IsSpace)
  }

  /** The form `preprocess` promises: no line break or tab, no two whitespace
      characters in a row, nothing of the trimmed class at either end, no
      whitespace before `?.!` and no `.` directly before a Hangul syllable. */
  predicate NormalForm(r: string)
  {
    (forall i | 0 <= i < |r| :: !IsControl(r[i])) &&
    NoPair(r, IsSpace, IsSpace) &&
    (r == [] || (!IsTrim(r[0]) && !IsTrim(r[|r| - 1]))) &&
    NoPair(r, IsSpace, IsPunct) && NoPair(r, IsDot, IsHangul)
  }

  /** The steps after 1 to 4 keep what those steps established and add the
      rest of the normal form. */
  lemma FinishNormalForm(x: string)
    requires NoPair(x, IsSpace, IsPunct) && NoPair(x, IsDot, IsHangul)
    ensures NormalForm(Strip(Collapse(Strip(x, IsTrim)), IsSpace))
  {
    var trimmed := Strip(x, IsTrim);
    StripKeepsNoPair(x, IsTrim, IsSpace, IsPunct);
    StripKeepsNoPair(x, IsTrim, IsDot, IsHangul);
    CollapsedNormalForm(trimmed);
    FinalStrip(trimmed);
  }

  /** Collapsing text that is trimmed and has neither kind of pair gives the
      normal form. */
  lemma CollapsedNormalForm(t: string)
    requires t == [] || (!IsTrim(t[0]) && !IsTrim(t[|t| - 1]))
    requires NoPair(t, IsSpace, IsPunct) && NoPair(t, IsDot, IsHangul)
    ensures NormalForm(Collapse(t))
  {
    FinalStrip(t);
    CollapseKeepsNoSpaceBeforePunct(t);
    CollapseKeepsNoDotBeforeHangul(t);
    CollapsedNoControl(t);
  }

  lemma CollapseKeepsNoSpaceBeforePunct(t: string)
    requires NoPair(t, IsSpace, IsPunct)
    ensures NoPair(Collapse(t), IsSpace, IsPunct)
  {
    CollapseKeepsNoPair(t, IsSpace, IsPunct);
  }

  lemma CollapseKeepsNoDotBeforeHangul(t: string)
    requires NoPair(t, IsDot, IsHangul)
    ensures NoPair(Collapse(t), IsDot, IsHangul)
  {
    CollapseKeepsNoPair(t, IsDot, IsHangul);
  }

  lemma CollapsedNoControl(t: string)
    ensures forall i | 0 <= i < |Collapse(t)| :: !IsControl(Collapse(t)[i])
  {
    var c := Collapse(t);
    assert forall i | 0 <= i < |c| :: IsSpace(c[i]) ==> c[i] == ' ';
  }

  /** Text in that normal form already passes the steps after 1 to 4 unchanged. */
  lemma FinishIdentity(x: string)
    requires forall i | 0 <= i < |x| :: IsSpace(x[i]) ==> x[i] == ' '
    requires NoPair(x, IsSpace, IsSpace)
    requires x == [] || (!IsTrim(x[0]) && !IsTrim(x[|x| - 1]))
    ensures Strip(Collapse(Strip(x, IsTrim)), IsSpace) == x
  {
    CollapseIdentity(x);
  }

  lemma {:induction false} ControlToSpaceIdentity(s: string)
    requires forall i | 0 <= i < |s| :: !IsControl(s[i])
    ensures ControlToSpace(s) == s
  {
  }

  /** After the URL step, text without whitespace whose ends are not in the
      trimmed class and with no `.` directly before a Hangul syllable comes out
      as the URL step made it. */
  lemma PreprocessAfterUrls(s: string)
    requires forall i | 0 <= i < |s| :: !IsControl(s[i]) && !IsSpace(s[i])
    requires var w := WrapUrls(s);
             (forall i | 0 <= i < |w| :: !IsSpace(w[i])) && NoPair(w, IsDot, IsHangul) &&
             (w == [] || (!IsTrim(w[0]) && !IsTrim(w[|w| - 1])))
    ensures Preprocess(s) == WrapUrls(s)
  {
    ControlToSpaceIdentity(s);
    CollapseIdentity(s);
    var w := WrapUrls(s);
    DropSpaceBeforePunctIdentity(w);
    SpaceAfterDotIdentity(w);
    assert Spaced(s) == w;
    FinishIdentity(w);
  }

  lemma {:induction false} LeadingRunAll(s: string, p: char -> bool)
    requires forall i | 0 <= i < |s| :: p(s[i])
    ensures LeadingRun(s, p) == |s|
  {
    if s != [] {
      LeadingRunAll(s[1..], p);
    }
  }

  /** Text that is one URL match is bracketed whole. */
  lemma WrapWholeMatch(u: string)
    requires u != [] && UrlMatch(u) == Some(|u|)
    ensures WrapUrls(u) == "[" + u + "]"
  {
    UrlMatchHasNoSpace(u);
    assert u[..|u|] == u && u[|u|..] == [];
    assert DeleteSpaces(u) == u;
  }

  /** `u` is `http://` followed by one or more URL characters and nothing else. */
  predicate IsBareUrl(u: string)
  {
    |u| > 7 && u[..7] == "http://" && forall i | 7 <= i < |u| :: IsUrlChar(u[i])
  }

  lemma BareUrlMatch(u: string)
    requires IsBareUrl(u)
    ensures UrlMatch(u) == Some(|u|)
  {
    assert u[..8][4] == ':' && "https://"[4] == 's';
    assert forall i | 0 <= i < |u[7..]| :: u[7..][i] == u[7 + i];
    LeadingRunAll(u[7..], IsUrlChar);
  }

  /** A bare `http://` URL is bracketed whole. */
  lemma WrapBareUrl(u: string)
    requires IsBareUrl(u)
    ensures WrapUrls(u) == "[" + u + "]"
  {
    BareUrlMatch(u);
    WrapWholeMatch(u);
  }

  /** `preprocess` brackets a bare URL, dots and all: a URL character is
      neither whitespace nor Hangul, so no later step touches it. */
  lemma PreprocessWrapsUrl(u: string)
    requires IsBareUrl(u)
    ensures Preprocess(u) == "[" + u + "]"
  {
    WrapBareUrl(u);
    BareUrlChars(u);
    BracketedChars(u, "[" + u + "]");
    PreprocessAfterUrls(u);
  }

  lemma BareUrlChars(u: string)
    requires IsBareUrl(u)
    ensures forall i | 0 <= i < |u| :: IsUrlChar(u[i])
  {
    forall i | 0 <= i < |u| ensures IsUrlChar(u[i]) {
      if i < 7 { assert u[i] == u[..7][i]; }
    }
  }

  /** A bracketed URL does not match at the bracket; the URL after it absorbs
      the closing bracket, which the class admits. */
  lemma WrapBracketedUrl(u: string, once: string)
    requires IsBareUrl(u) && once == "[" + u + "]"
    ensures WrapUrls(once) == "[" + once + "]"
  {
    var rest := once[1..];
    assert rest == u + "]";
    assert once[..8][0] != "https://"[0];
    assert once[..7][0] != "http://"[0];
    assert UrlMatch(once).None?;
    assert WrapUrls(once) == [once[0]] + WrapUrls(rest);
    assert rest[..7] == u[..7];
    assert IsBareUrl(rest);
    WrapBareUrl(rest);
  }

  /** `preprocess` is not idempotent: a second pass brackets the URL again. */
  lemma PreprocessRewrapsUrls(u: string)
    requires IsBareUrl(u)
    ensures Preprocess(u) == "[" + u + "]"
    ensures Preprocess(Preprocess(u)) == "[" + Preprocess(u) + "]"
  {
    PreprocessWrapsUrl(u);
    BareUrlChars(u);
    var once := Preprocess(u);
    WrapBracketedUrl(u, once);
    BracketedChars(u, once);
    var twice := "[" + once + "]";
    BracketedChars(once, twice);
    PreprocessAfterUrls(once);
  }

  /** Brackets around text of URL characters keep it so; such text has no
      whitespace, no Hangul and no trimmed character at its ends. */
  lemma BracketedChars(u: string, w: string)
    requires forall i | 0 <= i < |u| :: IsUrlChar(u[i])
    requires w == "[" + u + "]"
    ensures forall i | 0 <= i < |w| :: IsUrlChar(w[i])
    ensures forall i | 0 <= i < |w| :: !IsSpace(w[i]) && !IsControl(w[i])
    ensures NoPair(w, IsDot, IsHangul)
    ensures !IsTrim(w[0]) && !IsTrim(w[|w| - 1])
  {
    forall i | 0 <= i < |w| ensures IsUrlChar(w[i]) {
      if 0 < i < |w| - 1 { assert w[i] == u[i - 1]; }
    }
  }

  // ---- a `.` between Hangul words ----

  predicate AllHangul(s: string)
  {
    forall i | 0 <= i < |s| :: IsHangul(s[i])
  }

  lemma {:induction false} SpaceAfterDotBetweenHangul(a: string, b: string)
    requires AllHangul(a) && AllHangul(b) && b != []
    ensures SpaceAfterDot(a + ['.'] + b) == a + ['.', ' '] + b
    decreases |a|
  {
    if a == [] {
      assert a + ['.'] + b == ['.'] + b;
      SpaceAfterLeadingDot(b);
      assert a + ['.', ' '] + b == ['.', ' '] + b;
    } else {
      SpaceAfterDotBetweenHangul(a[1..], b);
      SpaceAfterDotStep(a, b);
    }
  }

  /** A `.` followed by Hangul text gets one space and the text is kept. */
  lemma SpaceAfterLeadingDot(b: string)
    requires AllHangul(b) && b != []
    ensures SpaceAfterDot(['.'] + b) == ['.', ' '] + b
  {
    var s := ['.'] + b;
    assert s[1] == b[0] && s[2..] == b[1..];
    assert NoPair(b[1..], IsDot, IsHangul);
    SpaceAfterDotIdentity(b[1..]);
    assert ['.', ' ', b[0]] + b[1..] == ['.', ' '] + b;
  }

  /** A leading Hangul syllable passes through the dot rule unchanged. */
  lemma SpaceAfterDotStep(a: string, b: string)
    requires a != [] && IsHangul(a[0])
    requires SpaceAfterDot(a[1..] + ['.'] + b) == a[1..] + ['.', ' '] + b
    ensures SpaceAfterDot(a + ['.'] + b) == a + ['.', ' '] + b
  {
    var s := a + ['.'] + b;
    assert s[0] == a[0] && s[1..] == a[1..] + ['.'] + b;
    assert [a[0]] + (a[1..] + ['.', ' '] + b) == a + ['.', ' '] + b;
  }

  lemma JoinedChars(a: string, m: string, b: string, p: char -> bool)
    requires forall i | 0 <= i < |a| :: p(a[i])
    requires forall i | 0 <= i < |m| :: p(m[i])
    requires forall i | 0 <= i < |b| :: p(b[i])
    ensures forall i | 0 <= i < |a + m + b| :: p((a + m + b)[i])
  {
    forall i | 0 <= i < |a + m + b| ensures p((a + m + b)[i]) {
      if i < |a| {
        assert (a + m + b)[i] == a[i];
      } else if i < |a| + |m| {
        assert (a + m + b)[i] == m[i - |a|];
      } else {
        assert (a + m + b)[i] == b[i - |a| - |m|];
      }
    }
  }

  /** A `.` between two Hangul words gets exactly one space after it, and the
      words are kept as they are. */
  lemma PreprocessSpacesDotBeforeHangul(a: string, b: string)
    requires a != [] && b != [] && AllHangul(a) && AllHangul(b)
    ensures Preprocess(a + ['.'] + b) == a + ['.', ' '] + b
  {
    SpacedBetweenHangul(a, b);
    SingleSpaceAfterDot(a, b);
    FinishIdentity(a + ['.', ' '] + b);
  }

  /** Steps 1 to 4 leave two Hangul words and the `.` between them alone, but
      for the space after the `.`. */
  lemma SpacedBetweenHangul(a: string, b: string)
    requires b != [] && AllHangul(a) && AllHangul(b)
    ensures Spaced(a + ['.'] + b) == a + ['.', ' '] + b
  {
    var s := a + ['.'] + b;
    var plain := (c: char) => !IsSpace(c) && c != 'h';
    JoinedChars(a, ['.'], b, plain);
    ControlToSpaceIdentity(s);
    CollapseIdentity(s);
    forall i | 0 <= i < |s| ensures UrlMatch(s[i..]).None? {
      NoUrlWithoutScheme(s[i..]);
    }
    WrapUrlsIdentity(s);
    DropSpaceBeforePunctIdentity(s);
    SpaceAfterDotBetweenHangul(a, b);
  }

  lemma SingleSpaceAfterDot(a: string, b: string)
    requires a != [] && b != [] && AllHangul(a) && AllHangul(b)
    ensures var x := a + ['.', ' '] + b;
            x[0] == a[0] && x[|x| - 1] == b[|b| - 1] &&
            (forall i | 0 <= i < |x| :: IsSpace(x[i]) ==> x[i] == ' ') && NoPair(x, IsSpace, IsSpace)
  {
    var x := a + ['.', ' '] + b;
    assert forall i | 0 <= i < |a| :: x[i] == a[i];
    assert forall i | |a| + 2 <= i < |x| :: x[i] == b[i - |a| - 2];
    assert x[|a|] == '.' && x[|a| + 1] == ' ';
    assert forall i | 0 <= i < |x| && i != |a| + 1 :: !IsSpace(x[i]);
  }


  /** A value passed to `preprocess`: a `str`, or any other object. */
  datatype PyValue<T> = PyStr(s: string) | PyOther(other: T)

  /** `preprocess` returns a non-string argument as it is. */
  function PreprocessValue<T>(x: PyValue<T>): (r: PyValue<T>)
    ensures x.PyOther? ==> r == x
    ensures x.PyStr? ==> r.PyStr? && (forall i | 0 <= i < |r.s| :: !IsControl(r.s[i]))
  {
    match x
    case PyStr(s) => PyStr(Preprocess(s))
    case PyOther(_) => x
  }

  // ---- create_prompt ----

  const PostTypeKr: map<string, string> := map["cat" := "고양이", "dog" := "강아지"]

  const EmotionKr: map<string, string> :=
    map["normal" := "평범한", "happy" := "기쁜", "sad" := "슬픈",
        "angry" := "화난", "grumpy" := "까칠한", "curious" := "호기심 많은"]

  /** `dict.get(key, key)`. */
  function GetOrSelf(m: map<string, string>, key: string): string
  {
    if key in m then m[key] else key
  }

  const SystemPrompt: string := "너는 동물 유형과 감정에 맞게 문장을 자연스럽게 변환하는 전문가야."

  const EmotionError: string := "CommentPromptGenerator는 emotion='normal'만 허용합니다."

  /** The chat template `create_prompt` fills: the system prompt, the user
      request naming the emotion and the animal with the comment as input,
      then the assistant's turn. */
  function PromptText(emotionKr: string, animal: string, comment: string): string
  {
    "<|system|>\n" + SystemPrompt + "\n"
    + "<|user|>\n" + "다음 문장을 " + emotionKr + "한 " + animal + " 말투로 바꿔줘.\n"
    + "Input: " + comment + "\n"
    + "Output:" + "\n"
    + "<|assistant|>\n"
  }

  /** The comment is placed verbatim: prompts for the same emotion and animal
      differ exactly when their comments do. */
  lemma PromptTextInjective(emotionKr: string, animal: string, c1: string, c2: string)
    requires PromptText(emotionKr, animal, c1) == PromptText(emotionKr, animal, c2)
    ensures c1 == c2
  {
    var head := "<|system|>\n" + SystemPrompt + "\n"
      + "<|user|>\n" + "다음 문장을 " + emotionKr + "한 " + animal + " 말투로 바꿔줘.\n"
      + "Input: ";
    var tail := "\n" + "Output:" + "\n" + "<|assistant|>\n";
    assert PromptText(emotionKr, animal, c1) == head + c1 + tail;
    assert PromptText(emotionKr, animal, c2) == head + c2 + tail;
    assert c1 == (head + c1 + tail)[|head|..|head| + |c1|];
    assert c2 == (head + c2 + tail)[|head|..|head| + |c2|];
  }

  /** The template appends 한 to the adjective, and the table's 평범한 already
      ends in it, so the request reads 평범한한. */
  lemma PromptDoublesSuffix(animal: string, comment: string)
    ensures var k := |"<|system|>\n" + SystemPrompt + "\n" + "<|user|>\n" + "다음 문장을 "|;
            PromptText("평범한", animal, comment)[k..k + 5] == "평범한한 "
  {
    var k := |"<|system|>\n" + SystemPrompt + "\n" + "<|user|>\n" + "다음 문장을 "|;
    var head := "<|system|>\n" + SystemPrompt + "\n" + "<|user|>\n" + "다음 문장을 ";
    var rest := "평범한" + "한 " + animal + " 말투로 바꿔줘.\n" + "Input: " + comment + "\n" + "Output:" + "\n" + "<|assistant|>\n";
    assert PromptText("평범한", animal, comment) == head + rest;
    assert (head + rest)[k..k + 5] == rest[..5];
  }

  /** The template text `create_prompt` builds; the `PromptTemplate` object
      wrapped around it is not modelled. */
  function CreatePrompt(emotion: string, postType: string, content: string): (r: Result<string>)
    ensures r.Err? <==> emotion != "normal"
    ensures r.Err? ==> r.message == EmotionError
  {
    if emotion != "normal" then Err(EmotionError)
    else Ok(PromptText(GetOrSelf(EmotionKr, emotion), GetOrSelf(PostTypeKr, postType), Preprocess(content)))
  }

  /** Since only `normal` passes the guard, every prompt says 평범한 and the
      other entries of the emotion table are never used; the animal is 고양이
      for `cat`, 강아지 for `dog` and the raw value otherwise; the comment goes
      in preprocessed. */
  lemma CreatePromptContents(postType: string, content: string)
    ensures var animal := if postType == "cat" then "고양이"
                          else if postType == "dog" then "강아지"
                          else postType;
            CreatePrompt("normal", postType, content) == Ok(PromptText("평범한", animal, Preprocess(content)))
  {
    NormalIsPlain();
    AnimalName(postType);
  }

  lemma NormalIsPlain()
    ensures GetOrSelf(EmotionKr, "normal") == "평범한"
  {
    assert "normal" in EmotionKr;
  }

  /** The animal of a post type: the table's word for `cat` and `dog`, the raw
      post type otherwise. */
  lemma AnimalName(postType: string)
    ensures GetOrSelf(PostTypeKr, postType) ==
            if postType == "cat" then "고양이" else if postType == "dog" then "강아지" else postType
  {
    assert PostTypeKr.Keys == {"cat", "dog"};
  }
}
