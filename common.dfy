/** Shared vocabulary of the model: optional values, Python's decimal
    rendering of integers, Python's whitespace class, and subsequences. */
module Common {

  datatype Option<+T> = None | Some(value: T)

  datatype Result<+T> = Ok(value: T) | Err(message: string)

  /** A Python float as `str()` renders it; the model never computes with floats. */
  datatype Float = Float(repr: string)

  /** A value passed by keyword to a settings update: the Python types the
      settings records declare. */
  datatype Value =
    | Str(s: string)
    | Int(i: int)
    | Bool(b: bool)
    | FloatValue(f: Float)
    | NoneValue
    | StrList(items: seq<string>)

  /** The value of the last `(name, value)` pair for `name`, if any. */
  function LastAssigned(kwargs: seq<(string, Value)>, name: string): (r: Option<Value>)
    ensures r.None? <==> forall i | 0 <= i < |kwargs| :: kwargs[i].0 != name
    ensures r.Some? ==> exists i | 0 <= i < |kwargs| ::
              kwargs[i] == (name, r.value) && forall j | i < j < |kwargs| :: kwargs[j].0 != name
  {
    if kwargs == [] then None
    else
      var n := |kwargs| - 1;
      if kwargs[n].0 == name then
        assert kwargs[n] == (name, kwargs[n].1);
        Some(kwargs[n].1)
      else
        var init := kwargs[..n];
        var r := LastAssigned(init, name);
        assert forall i | 0 <= i < n :: init[i] == kwargs[i];
        assert r.Some? ==> exists i | 0 <= i < |kwargs| ::
                 kwargs[i] == (name, r.value) && forall j | i < j < |kwargs| :: kwargs[j].0 != name by {
          if r.Some? {
            var i :| 0 <= i < n && init[i] == (name, r.value) && forall j | i < j < n :: init[j].0 != name;
            assert kwargs[i] == (name, r.value);
            assert forall j | i < j < |kwargs| :: kwargs[j].0 != name;
          }
        }
        r
  }

  /** Python's str.isspace(), which is also what `\s` matches in a str pattern
      and what str.strip() removes. */
  predicate IsSpace(c: char)
  {
    ('\t' <= c <= '\r') || ('\U{1C}' <= c <= ' ') ||
    c == '\U{85}' || c == '\U{A0}' || c == '\U{1680}' ||
    ('\U{2000}' <= c <= '\U{200A}') || c == '\U{2028}' || c == '\U{2029}' ||
    c == '\U{202F}' || c == '\U{205F}' || c == '\U{3000}'
  }

  predicate IsDigit(c: char) { '0' <= c <= '9' }

  function DigitChar(d: nat): (c: char)
    requires d < 10
    ensures IsDigit(c)
  {
    "0123456789"[d]
  }

  /** Python's str() of a non-negative int: its decimal digits, no leading zeros. */
  function NatToString(n: nat): (s: string)
    ensures |s| >= 1
    ensures forall i | 0 <= i < |s| :: IsDigit(s[i])
    ensures |s| > 1 ==> s[0] != '0'
    decreases n
  {
    if n < 10 then [DigitChar(n)] else NatToString(n / 10) + [DigitChar(n % 10)]
  }

  /** Python's str() of an int: a minus sign before the digits of a negative value. */
  function IntToString(i: int): (s: string)
    ensures |s| >= 1
    ensures (s[0] == '-') <==> i < 0
  {
    if i < 0 then "-" + NatToString(-i) else NatToString(i)
  }

  /** `a` is obtained from `b` by deleting elements only. */
  predicate IsSubsequence<T(==)>(a: seq<T>, b: seq<T>)
    decreases |b|
  {
    if a == [] then true
    else if b == [] then false
    else if a[0] == b[0] then IsSubsequence(a[1..], b[1..])
    else IsSubsequence(a, b[1..])
  }

  lemma SplitAt<T>(a: seq<T>, b: seq<T>)
    ensures (a + b)[..|a|] == a && (a + b)[|a|..] == b
  {
  }

  lemma TakeDropJoin<T>(s: seq<T>, m: nat)
    requires m <= |s|
    ensures s[..m] + s[m..] == s
  {
  }

  lemma HeadJoin<T>(s: seq<T>)
    requires |s| >= 1
    ensures [s[0]] + s[1..] == s
  {
  }

  lemma TwoHeadJoin<T>(s: seq<T>)
    requires |s| >= 2
    ensures [s[0], s[1]] + s[2..] == s
  {
  }

  lemma AppendTail<T>(a: seq<T>, b: seq<T>)
    requires a != []
    ensures (a + b)[0] == a[0] && (a + b)[1..] == a[1..] + b
  {
  }

  lemma AppendDrop<T>(a: seq<T>, b: seq<T>, n: nat)
    requires n <= |a|
    ensures (a + b)[..n] == a[..n] && (a + b)[n..] == a[n..] + b
  {
  }

  lemma {:induction false} SubsequenceLength<T>(a: seq<T>, b: seq<T>)
    requires IsSubsequence(a, b)
    ensures |a| <= |b|
    decreases |b|
  {
    if a != [] && b != [] {
      if a[0] == b[0] { SubsequenceLength(a[1..], b[1..]); }
      else { SubsequenceLength(a, b[1..]); }
    }
  }

  lemma {:induction false} SubsequenceRefl<T>(a: seq<T>)
    ensures IsSubsequence(a, a)
    decreases |a|
  {
    if a != [] { SubsequenceRefl(a[1..]); }
  }

  /** Deleting from a subsequence keeps it a subsequence. */
  lemma {:induction false} SubsequenceTrans<T>(a: seq<T>, b: seq<T>, c: seq<T>)
    requires IsSubsequence(a, b) && IsSubsequence(b, c)
    ensures IsSubsequence(a, c)
    decreases |c|
  {
    if a == [] || b == [] {
    } else if c == [] {
    } else if b[0] == c[0] {
      if a[0] == b[0] {
        SubsequenceTrans(a[1..], b[1..], c[1..]);
      } else {
        SubsequenceTrans(a, b[1..], c[1..]);
        SubsequenceSkip(c[0], a, c[1..]);
        assert [c[0]] + c[1..] == c;
      }
    } else {
      SubsequenceTrans(a, b, c[1..]);
      SubsequenceSkip(c[0], a, c[1..]);
      assert [c[0]] + c[1..] == c;
    }
  }

  /** Keeping a prefix element and a subsequence of the rest is a subsequence. */
  lemma {:induction false} SubsequenceCons<T>(x: T, a: seq<T>, b: seq<T>)
    requires IsSubsequence(a, b)
    ensures IsSubsequence([x] + a, [x] + b)
  {
    assert ([x] + a)[1..] == a;
    assert ([x] + b)[1..] == b;
  }

  /** Dropping the first element of a subsequence keeps it a subsequence. */
  lemma {:induction false} SubsequenceTail<T>(a: seq<T>, b: seq<T>)
    requires a != [] && IsSubsequence(a, b)
    ensures IsSubsequence(a[1..], b)
    decreases |b|, 0
  {
    if a[0] == b[0] {
      SubsequenceSkip(b[0], a[1..], b[1..]);
      assert [b[0]] + b[1..] == b;
    } else {
      SubsequenceTail(a, b[1..]);
      SubsequenceSkip(b[0], a[1..], b[1..]);
      assert [b[0]] + b[1..] == b;
    }
  }

  /** Putting an element in front of `b` keeps `a` a subsequence of it. */
  lemma {:induction false} SubsequenceSkip<T>(x: T, a: seq<T>, b: seq<T>)
    requires IsSubsequence(a, b)
    ensures IsSubsequence(a, [x] + b)
    decreases |b|, 1
  {
    assert ([x] + b)[1..] == b;
    if a != [] && a[0] == x {
      SubsequenceTail(a, b);
    }
  }

  lemma MulAtLeast(d: int, n: int)
    requires d >= 1 && n > 0
    ensures d * n >= n
  {
  }

  /** Quotient and remainder are unique. */
  lemma DivModUnique(a: int, n: int, q: int, r: int)
    requires n > 0 && 0 <= r < n && a == q * n + r
    ensures a / n == q && a % n == r
  {
    var q', r' := a / n, a % n;
    assert a == q' * n + r';
    assert (q - q') * n == r' - r;
    assert (q' - q) * n == r - r';
    if q > q' {
      MulAtLeast(q - q', n);
    } else if q < q' {
      MulAtLeast(q' - q, n);
    }
  }
}
