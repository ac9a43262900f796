/** The clean-up `CommentTransformationService.postprocess` applies to the
    model's completion: keep what follows the first `Output:` marker, keep the
    first line of it, delete the model's special tokens, trim whitespace. */
module CommentPostprocess {
  import opened Common
  import opened Text

  const Marker: string := "Output:"

  /** `text.split("Output:", 1)[-1]` when the marker occurs, else `text`. */
  function AfterMarker(s: string): (r: string)
    ensures IsSubsequence(r, s)
    ensures !Occurs(s, Marker) ==> r == s
  {
    match Find(s, Marker)
    case Some(i) =>
      SubsequenceRefl(s[i + |Marker|..]);
      SuffixSubsequence(s[i + |Marker|..], s, i + |Marker|);
      s[i + |Marker|..]
    case None =>
      SubsequenceRefl(s);
      s
  }

  /** `s.split('\n')[0]`: everything before the first line feed. */
  function FirstLine(s: string): (r: string)
    ensures |r| <= |s| && r == s[..|r|]
    ensures forall i | 0 <= i < |r| :: r[i] != '\n'
    ensures |r| < |s| ==> s[|r|] == '\n'
  {
    if s == [] || s[0] == '\n' then []
    else [s[0]] + FirstLine(s[1..])
  }

  /** The two special-token patterns: `<\|endof.*?\|>` (case-insensitive) and
      `<\|.*?\|>`. */
  datatype TagKind = EndOfTag | AnyTag

  /** The length of the fixed opening of a tag: `<|endof` or `<|`. */
  function OpenLength(kind: TagKind): nat
  {
    match kind
    case EndOfTag => 7
    case AnyTag => 2
  }

  /** ASCII letters in lower case, other characters as they are: for the
      letters of `endof`, this is what `re.IGNORECASE` compares. */
  function Lower(c: char): (d: char)
    ensures ('A' <= c <= 'Z') ==> d as int == c as int + 32
    ensures !('A' <= c <= 'Z') ==> d == c
  {
    if 'A' <= c <= 'Z' then (c as int + 32) as char else c
  }

  /** Folding compares a character with a lower-case letter as
      `re.IGNORECASE` does for ASCII: either case of the letter matches. */
  lemma LowerFoldsCase(c: char, x: char)
    requires 'a' <= x <= 'z'
    ensures Lower(c) == x <==> (c == x || c as int == x as int - 32)
  {
  }

  /** `s` starts with the fixed opening of a tag of this kind. */
  predicate Opens(s: string, kind: TagKind)
  {
    |s| >= OpenLength(kind) && s[..2] == "<|" &&
    (kind.EndOfTag? ==>
       Lower(s[2]) == 'e' && Lower(s[3]) == 'n' && Lower(s[4]) == 'd' &&
       Lower(s[5]) == 'o' && Lower(s[6]) == 'f')
  }

  /** Every `<|endof` opening is also a `<|` opening, so the second
      substitution would delete any `<|endof…|>` tag the first left. */
  lemma EndOfOpensAny(s: string)
    requires Opens(s, EndOfTag)
    ensures Opens(s, AnyTag)
  {
  }

  /** Where the lazy `.*?\|>` ends its match in `t`: the first `|>` that no
      line feed precedes (`.` does not match a line feed). */
  function FindClose(t: string): (r: Option<nat>)
    ensures r.Some? ==> OccursAt(t, "|>", r.value) &&
                        (forall k | 0 <= k < r.value :: t[k] != '\n') &&
                        forall j: nat | j < r.value :: !OccursAt(t, "|>", j)
    ensures r.None? ==> forall j: nat | OccursAt(t, "|>", j) ::
                          exists k | 0 <= k < j :: t[k] == '\n'
  {
    if |t| < 2 then None
    else if t[..2] == "|>" then Some(0)
    else if t[0] == '\n' then
      assert !OccursAt(t, "|>", 0);
      None
    else
      var r := FindClose(t[1..]);
      forall j: nat | j + 1 <= |t| ensures OccursAt(t, "|>", j + 1) == OccursAt(t[1..], "|>", j) {
        OccursShift(t, "|>", j);
      }
      assert !OccursAt(t, "|>", 0);
      match r
      case None =>
        assert forall j: nat | OccursAt(t, "|>", j) :: exists k | 0 <= k < j :: t[k] == '\n' by {
          forall j: nat | OccursAt(t, "|>", j) ensures exists k | 0 <= k < j :: t[k] == '\n' {
            assert j > 0;
            assert OccursAt(t[1..], "|>", j - 1);
            var k :| 0 <= k < j - 1 && t[1..][k] == '\n';
            assert t[k + 1] == '\n';
          }
        }
        None
      case Some(j) =>
        assert forall k | 0 <= k < j + 1 :: t[k] != '\n' by {
          forall k | 0 <= k < j + 1 ensures t[k] != '\n' {
            if k > 0 { assert t[k] == t[1..][k - 1]; }
          }
        }
        assert forall i: nat | 0 < i < j + 1 :: !OccursAt(t, "|>", i) by {
          forall i: nat | 0 < i < j + 1 ensures !OccursAt(t, "|>", i) {
            assert !OccursAt(t[1..], "|>", i - 1);
          }
        }
        Some(j + 1)
  }

  /** One `re.sub` of the tag pattern with '': scanning from the left, a tag
      opening whose close is found is deleted through the close; otherwise the
      character is kept and the scan moves on by one. */
  function RemoveTags(s: string, kind: TagKind): (r: string)
    ensures IsSubsequence(r, s)
    ensures (forall i | 0 <= i < |s| :: s[i] != '<') ==> r == s
    decreases |s|
  {
    if s == [] then
      []
    else if Opens(s, kind) && FindClose(s[OpenLength(kind)..]).Some? then
      var n := OpenLength(kind) + FindClose(s[OpenLength(kind)..]).value + 2;
      assert s[0] == s[..2][0] == '<';
      var r := RemoveTags(s[n..], kind);
      SuffixSubsequence(r, s, n);
      r
    else
      var r := RemoveTags(s[1..], kind);
      SubsequenceCons(s[0], r, s[1..]);
      assert [s[0]] + s[1..] == s;
      [s[0]] + r
  }

  /** The steps after the marker split: first line of the stripped text,
      `</s>` deleted, `<|endof…|>` tags deleted, `<|…|>` tags deleted, `<s>`
      deleted, whitespace stripped. Everything kept was in the input, in
      order, and on its first line. */
  function Clean(t: string): (r: string)
    ensures IsSubsequence(r, t)
    ensures forall i | 0 <= i < |r| :: r[i] != '\n'
    ensures r == [] || (!IsSpace(r[0]) && !IsSpace(r[|r| - 1]))
  {
    var stripped := Strip(t, IsSpace);
    var line := FirstLine(stripped);
    var noEos := RemoveAll(line, "</s>");
    var noEnd := RemoveTags(noEos, EndOfTag);
    var noTags := RemoveTags(noEnd, AnyTag);
    var noBos := RemoveAll(noTags, "<s>");
    CleanSteps(t, stripped, line, noEos, noEnd, noTags, noBos);
    Strip(noBos, IsSpace)
  }

  lemma CleanSteps(t: string, stripped: string, line: string, noEos: string, noEnd: string,
                   noTags: string, noBos: string)
    requires stripped == Strip(t, IsSpace) && line == FirstLine(stripped)
    requires IsSubsequence(noEos, line) && IsSubsequence(noEnd, noEos)
    requires IsSubsequence(noTags, noEnd) && IsSubsequence(noBos, noTags)
    ensures IsSubsequence(Strip(noBos, IsSpace), t)
    ensures forall i | 0 <= i < |Strip(noBos, IsSpace)| :: Strip(noBos, IsSpace)[i] != '\n'
  {
    var r := Strip(noBos, IsSpace);
    StripSubsequence(t, IsSpace);
    PrefixSubsequence(stripped, |line|);
    SubsequenceTrans(line, stripped, t);
    SubsequenceTrans(noEnd, noEos, line);
    SubsequenceTrans(noTags, noEnd, line);
    SubsequenceTrans(noBos, noTags, line);
    StripSubsequence(noBos, IsSpace);
    SubsequenceTrans(r, noBos, line);
    SubsequenceTrans(r, line, t);
    SubsequenceKeepsAll(r, line, c => c != '\n');
  }

  /** `postprocess(text)`: one line without surrounding whitespace, made only
      of characters of the completion, in their order. Its `max_repeat` and
      `max_len` parameters are never read, so they are not parameters here. */
  function Postprocess(s: string): (r: string)
    ensures IsSubsequence(r, s) && |r| <= |s|
    ensures forall i | 0 <= i < |r| :: r[i] != '\n'
    ensures r == [] || (!IsSpace(r[0]) && !IsSpace(r[|r| - 1]))
  {
    var a := AfterMarker(s);
    var r := Clean(a);
    CleanEnds(a);
    SubsequenceTrans(r, a, s);
    SubsequenceLength(r, s);
    r
  }

  /** `Clean`'s guarantee about the ends, stated for one call. */
  lemma CleanEnds(a: string)
    ensures Clean(a) == [] || (!IsSpace(Clean(a)[0]) && !IsSpace(Clean(a)[|Clean(a)| - 1]))
  {
  }

  // ---- properties ----

  lemma {:induction false} SubsequenceKeepsAll(a: string, b: string, p: char -> bool)
    requires IsSubsequence(a, b) && forall i | 0 <= i < |b| :: p(b[i])
    ensures forall i | 0 <= i < |a| :: p(a[i])
    decreases |b|
  {
    if a != [] && b != [] {
      if a[0] == b[0] {
        SubsequenceKeepsAll(a[1..], b[1..], p);
        assert forall i | 1 <= i < |a| :: a[i] == a[1..][i - 1];
      } else {
        SubsequenceKeepsAll(a, b[1..], p);
      }
    }
  }

  /** Whatever precedes the first `Output:` marker, the prompt echo included,
      does not reach the result; later markers are ordinary text. */
  lemma PrefixIgnored(p: string, t: string)
    requires !Occurs(p + "Output", Marker)
    ensures Postprocess(p + Marker + t) == Clean(t)
  {
    var s := p + Marker + t;
    assert OccursAt(s, Marker, |p|) by {
      assert s[|p|..|p| + 7] == Marker;
    }
    forall k: nat | k < |p|
      ensures !OccursAt(s, Marker, k)
    {
      assert s[k..k + 7] == (p + "Output")[k..k + 7];
      assert !OccursAt(p + "Output", Marker, k);
    }
    var f := Find(s, Marker);
    assert f == Some(|p|);
    assert s[|p| + 7..] == t;
  }

  /** A single line with no `<`, no marker and no surrounding whitespace comes
      out as it is, however long it is and however often its words repeat: the
      length cut and repetition removal the documentation mentions are not
      performed. */
  lemma CleanLineUnchanged(s: string)
    requires !Occurs(s, Marker)
    requires forall i | 0 <= i < |s| :: s[i] != '\n' && s[i] != '<'
    requires s == [] || (!IsSpace(s[0]) && !IsSpace(s[|s| - 1]))
    ensures Postprocess(s) == s
  {
    assert AfterMarker(s) == s;
    assert Strip(s, IsSpace) == s;
    var line := FirstLine(s);
    assert |line| == |s| && line == s[..|s|];
    assert line == s;
    NoLessThanNoOccurrence(s, "</s>");
    assert RemoveAll(s, "</s>") == s;
    assert RemoveTags(s, EndOfTag) == s;
    assert RemoveTags(s, AnyTag) == s;
    NoLessThanNoOccurrence(s, "<s>");
    assert RemoveAll(s, "<s>") == s;
  }

  lemma NoLessThanNoOccurrence(s: string, pat: string)
    requires pat != [] && pat[0] == '<'
    requires forall i | 0 <= i < |s| :: s[i] != '<'
    ensures !Occurs(s, pat)
  {
    forall i: nat | i <= |s|
      ensures !OccursAt(s, pat, i)
    {
      if i + |pat| <= |s| {
        assert s[i..i + |pat|][0] == s[i];
      }
    }
  }

  /** The close of a tag is the first `|>` after its opening: a tag whose body
      holds neither a line feed nor `|>` is deleted whole, and the scan goes on
      after it. */
  lemma TagRemoved(s: string, kind: TagKind, body: string, rest: string)
    requires Opens(s, kind) && s[OpenLength(kind)..] == body + "|>" + rest
    requires forall i | 0 <= i < |body| :: body[i] != '\n'
    requires !Occurs(body, "|>")
    ensures RemoveTags(s, kind) == RemoveTags(rest, kind)
  {
    var t := s[OpenLength(kind)..];
    assert OccursAt(t, "|>", |body|) by {
      assert t[|body|..|body| + 2] == "|>";
    }
    forall j: nat | j < |body|
      ensures !OccursAt(t, "|>", j)
    {
      if j + 2 <= |body| {
        assert t[j..j + 2] == body[j..j + 2];
        assert !OccursAt(body, "|>", j);
      } else {
        assert t[j] == body[j] && t[j + 1] == '|';
      }
    }
    assert FindClose(t) == Some(|body|);
    assert s[OpenLength(kind) + |body| + 2..] == rest;
  }

  /** `s` is `<<|x|>|y|>`: a tag nested after a `<`, with one-character bodies
      that are neither a line feed nor `<`. */
  predicate NestedTag(s: string)
  {
    |s| == 10 && s[0] == '<' && s[1] == '<' && s[2] == '|' && s[4] == '|' && s[5] == '>' &&
    s[6] == '|' && s[8] == '|' && s[9] == '>' &&
    s[3] != '\n' && s[3] != '<' && s[7] != '\n' && s[7] != '<'
  }

  /** One pass can leave a tag behind: in `<<|x|>|y|>`, deleting the inner tag
      `<|x|>` joins the `<` before it to the `|y|>` after it, and only a second
      pass deletes that. */
  lemma TagsOutliveOnePass(s: string)
    requires NestedTag(s)
    ensures RemoveTags(s, AnyTag) == [s[0]] + s[6..]
    ensures RemoveTags([s[0]] + s[6..], AnyTag) == []
  {
    assert s[..2][1] == s[1];
    NotOpeningKept(s, AnyTag);
    ShortTagRemoved(s[1..]);
    var rest := s[6..];
    forall i | 0 <= i < |rest|
      ensures rest[i] != '<'
    {
      assert rest[i] == s[i + 6] && (i == 0 || i == 1 || i == 2 || i == 3);
    }
    ShortTagRemoved([s[0]] + rest);
  }

  /** A tag `<|x|>` with a one-character body is deleted whole, and the scan
      goes on after it. */
  lemma ShortTagRemoved(t: string)
    requires |t| >= 5 && t[0] == '<' && t[1] == '|' && t[2] != '\n' && t[3] == '|' && t[4] == '>'
    ensures RemoveTags(t, AnyTag) == RemoveTags(t[5..], AnyTag)
  {
    assert t[..2] == "<|";
    assert t[2..] == t[2..3] + "|>" + t[5..];
    ShortHasNoClose(t[2..3]);
    TagRemoved(t, AnyTag, t[2..3], t[5..]);
  }

  lemma NotOpeningKept(s: string, kind: TagKind)
    requires s != [] && !Opens(s, kind)
    ensures RemoveTags(s, kind) == [s[0]] + RemoveTags(s[1..], kind)
  {
  }

  /** An opening with no close after it on its line is not a tag: its first
      character is kept and the scan moves on by one. */
  lemma OpenWithoutCloseKept(s: string, kind: TagKind)
    requires Opens(s, kind) && FindClose(s[OpenLength(kind)..]).None?
    ensures RemoveTags(s, kind) == [s[0]] + RemoveTags(s[1..], kind)
  {
  }

  /** Text with no `|>` in it has no tag to delete, whatever openings it holds. */
  lemma {:induction false} WithoutCloseUnchanged(s: string, kind: TagKind)
    requires !Occurs(s, "|>")
    ensures RemoveTags(s, kind) == s
    decreases |s|
  {
    if s != [] {
      forall j: nat | j <= |s[1..]|
        ensures !OccursAt(s[1..], "|>", j)
      {
        OccursDrop(s, "|>", 1, j);
      }
      WithoutCloseUnchanged(s[1..], kind);
      var n := OpenLength(kind);
      if Opens(s, kind) && FindClose(s[n..]).Some? {
        var v := FindClose(s[n..]).value;
        OccursDrop(s, "|>", n, v);
        assert false;
      }
      HeadJoin(s);
    }
  }

  lemma ShortHasNoClose(body: string)
    requires |body| < 2
    ensures !Occurs(body, "|>")
  {
  }

  /** Neither `<<|x|>|y|>` nor `<|y|>` holds an `<|endof` opening when `x` is
      not an `e`. */
  lemma NestedTagHasNoEndOfTag(s: string)
    requires NestedTag(s) && Lower(s[3]) != 'e'
    ensures RemoveTags(s, EndOfTag) == s
    ensures RemoveTags([s[0]] + s[6..], EndOfTag) == [s[0]] + s[6..]
  {
    assert s[..2][1] == s[1];
    NotOpeningKept(s, EndOfTag);
    NotOpeningKept(s[1..], EndOfTag);
    assert forall i | 0 <= i < |s[2..]| :: s[2..][i] != '<';
    assert [s[0]] + ([s[1]] + s[2..]) == s;
    var joined := [s[0]] + s[6..];
    NotOpeningKept(joined, EndOfTag);
    assert forall i | 0 <= i < |joined[1..]| :: joined[1..][i] != '<';
  }

  /** On a single trimmed line without marker or `</s>`, only the tag and
      `<s>` deletions and the final strip act. */
  lemma PostprocessLine(s: string)
    requires !Occurs(s, Marker) && !Occurs(s, "</s>")
    requires forall i | 0 <= i < |s| :: s[i] != '\n'
    requires s == [] || (!IsSpace(s[0]) && !IsSpace(s[|s| - 1]))
    ensures Postprocess(s) ==
            Strip(RemoveAll(RemoveTags(RemoveTags(s, EndOfTag), AnyTag), "<s>"), IsSpace)
  {
    assert AfterMarker(s) == s;
    assert Strip(s, IsSpace) == s;
    var line := FirstLine(s);
    assert |line| == |s| && line == s[..|s|];
    assert line == s;
    assert RemoveAll(s, "</s>") == s;
    assert Clean(s) == Strip(RemoveAll(RemoveTags(RemoveTags(s, EndOfTag), AnyTag), "<s>"), IsSpace);
  }

  lemma NoMarkers(s: string)
    requires forall i | 0 <= i < |s| :: s[i] != 'O' && s[i] != '/' && s[i] != 's'
    ensures !Occurs(s, Marker) && !Occurs(s, "</s>") && !Occurs(s, "<s>")
  {
    forall i: nat | i <= |s|
      ensures !OccursAt(s, Marker, i) && !OccursAt(s, "</s>", i) && !OccursAt(s, "<s>", i)
    {
      if i + 7 <= |s| { assert s[i..i + 7][0] == s[i]; }
      if i + 4 <= |s| { assert s[i..i + 4][1] == s[i + 1]; }
      if i + 3 <= |s| { assert s[i..i + 3][1] == s[i + 1]; }
    }
  }

  /** `postprocess` is not idempotent: on `<<|x|>|y|>` it returns the tag
      `<|y|>`, which a second pass deletes. */
  lemma PostprocessLeavesTag(s: string)
    requires NestedTag(s) && Lower(s[3]) != 'e'
    requires forall i | 0 <= i < |s| :: s[i] != 'O' && s[i] != '/' && s[i] != 's'
    ensures Postprocess(s) == [s[0]] + s[6..]
    ensures Postprocess(Postprocess(s)) == []
  {
    FirstPass(s);
    SecondPass(s);
  }

  lemma FirstPass(s: string)
    requires NestedTag(s) && Lower(s[3]) != 'e'
    requires forall i | 0 <= i < |s| :: s[i] != 'O' && s[i] != '/' && s[i] != 's'
    ensures Postprocess(s) == [s[0]] + s[6..]
  {
    NoMarkers(s);
    NestedTagOneLine(s);
    PostprocessLine(s);
    NestedTagHasNoEndOfTag(s);
    TagsOutliveOnePass(s);
    JoinedLine(s);
  }

  lemma SecondPass(s: string)
    requires NestedTag(s) && Lower(s[3]) != 'e'
    requires forall i | 0 <= i < |s| :: s[i] != 'O' && s[i] != '/' && s[i] != 's'
    ensures Postprocess([s[0]] + s[6..]) == []
  {
    JoinedLine(s);
    PostprocessLine([s[0]] + s[6..]);
    NestedTagHasNoEndOfTag(s);
    TagsOutliveOnePass(s);
  }

  /** `<|y|>` is a trimmed line without marker, `</s>` or `<s>`. */
  lemma JoinedLine(s: string)
    requires NestedTag(s)
    requires forall i | 0 <= i < |s| :: s[i] != 'O' && s[i] != '/' && s[i] != 's'
    ensures var j := [s[0]] + s[6..];
            !Occurs(j, Marker) && !Occurs(j, "</s>") && (forall i | 0 <= i < |j| :: j[i] != '\n') &&
            !IsSpace(j[0]) && !IsSpace(j[|j| - 1]) &&
            Strip(RemoveAll(j, "<s>"), IsSpace) == j
  {
    var j := [s[0]] + s[6..];
    assert forall i | 0 <= i < |j| :: j[i] == s[if i == 0 then 0 else i + 5];
    NoMarkers(j);
    NestedTagOneLine(s);
    assert RemoveAll(j, "<s>") == j;
    assert |j| == 5 && j[0] == '<' && j[4] == s[9] == '>';
  }

  lemma NestedTagOneLine(s: string)
    requires NestedTag(s)
    ensures forall i | 0 <= i < |s| :: s[i] != '\n'
  {
    forall i | 0 <= i < |s|
      ensures s[i] != '\n'
    {
      assert i == 0 || i == 1 || i == 2 || i == 3 || i == 4 || i == 5 || i == 6 || i == 7 || i == 8 || i == 9;
    }
  }

  /** For every length there is a completion of that length returned whole. */
  lemma NoLengthCap(n: nat)
    ensures var s := seq(n, _ => 'a');
            |Postprocess(s)| == n
  {
    var s := seq(n, _ => 'a');
    forall i: nat | i <= |s|
      ensures !OccursAt(s, Marker, i)
    {
      if i + 7 <= |s| {
        assert s[i..i + 7][0] == 'a';
      }
    }
    CleanLineUnchanged(s);
  }
}
