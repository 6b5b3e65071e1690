/**
 * Character classes and the string operations the cleaner applies:
 * Python's whitespace, `str.strip()`, ASCII `str.upper()`, decimal digits
 * and the value of a run of digits.
 */
module Text {

  import opened Wrappers

  /** Python's `str.isspace()`; `re`'s `\s` matches the same characters. */
  predicate IsSpace(c: char) {
    c == ' ' || c == '\t' || c == '\n' || c == '\r' || c == '\U{000B}' || c == '\U{000C}'
    || ('\U{001C}' <= c <= '\U{001F}') || c == '\U{0085}' || c == '\U{00A0}' || c == '\U{1680}'
    || ('\U{2000}' <= c <= '\U{200A}') || c == '\U{2028}' || c == '\U{2029}' || c == '\U{202F}'
    || c == '\U{205F}' || c == '\U{3000}'
  }

  predicate IsDigit(c: char) {
    '0' <= c <= '9'
  }

  predicate AllSpace(s: string) {
    forall i :: 0 <= i < |s| ==> IsSpace(s[i])
  }

  predicate AllDigits(s: string) {
    forall i :: 0 <= i < |s| ==> IsDigit(s[i])
  }

  /** The end of the longest run of characters satisfying `p` that starts at `i`. */
  function SpanFrom(s: string, i: nat, p: char -> bool): (n: nat)
    requires i <= |s|
    ensures i <= n <= |s|
    ensures forall k :: i <= k < n ==> p(s[k])
    ensures n < |s| ==> !p(s[n])
    decreases |s| - i
  {
    if i == |s| || !p(s[i]) then i else SpanFrom(s, i + 1, p)
  }

  /** Length of the longest prefix of `s` whose characters all satisfy `p`. */
  function Span(s: string, p: char -> bool): (n: nat)
    ensures n <= |s|
    ensures forall k :: 0 <= k < n ==> p(s[k])
    ensures n < |s| ==> !p(s[n])
  {
    SpanFrom(s, 0, p)
  }

  lemma {:induction false} SpanFromPrefix(a: string, rest: string, i: nat, p: char -> bool)
    requires i <= |a|
    requires forall k :: i <= k < |a| ==> p(a[k])
    requires rest != [] ==> !p(rest[0])
    ensures SpanFrom(a + rest, i, p) == |a|
    decreases |a| - i
  {
    if i < |a| {
      assert (a + rest)[i] == a[i];
      SpanFromPrefix(a, rest, i + 1, p);
    } else if rest != [] {
      assert (a + rest)[i] == rest[0];
    }
  }

  /** A prefix all of whose characters satisfy `p`, followed by one that does not, is the span. */
  lemma SpanPrefix(a: string, rest: string, p: char -> bool)
    requires forall k :: 0 <= k < |a| ==> p(a[k])
    requires rest != [] ==> !p(rest[0])
    ensures Span(a + rest, p) == |a|
  {
    SpanFromPrefix(a, rest, 0, p);
  }

  /** Length of the longest all-whitespace suffix of `s`. */
  function TrailingSpaces(s: string): (n: nat)
    ensures n <= |s|
    ensures forall k :: |s| - n <= k < |s| ==> IsSpace(s[k])
    ensures n < |s| ==> !IsSpace(s[|s| - 1 - n])
  {
    if |s| == 0 || !IsSpace(s[|s| - 1]) then 0 else 1 + TrailingSpaces(s[..|s| - 1])
  }

  /** A whitespace suffix after a non-whitespace character is exactly the trailing whitespace. */
  lemma {:induction false} TrailingSuffix(a: string, b: string)
    requires a != [] ==> !IsSpace(a[|a| - 1])
    requires AllSpace(b)
    ensures TrailingSpaces(a + b) == |b|
    decreases |b|
  {
    if b == [] {
      assert a + b == a;
    } else {
      assert (a + b)[..|a + b| - 1] == a + b[..|b| - 1];
      TrailingSuffix(a, b[..|b| - 1]);
    }
  }

  /**
   * Python's `str.strip()`: `s` without its leading and trailing whitespace.
   * The result is the infix of `s` between two all-whitespace pads and,
   * unless empty, starts and ends with a non-whitespace character.
   */
  function Trim(s: string): (r: string)
    ensures |r| <= |s|
    ensures r == [] <==> AllSpace(s)
    ensures r != [] ==> !IsSpace(r[0]) && !IsSpace(r[|r| - 1])
    ensures exists i :: 0 <= i <= |s| - |r| && r == s[i..i + |r|] && AllSpace(s[..i]) && AllSpace(s[i + |r|..])
  {
    var a := Span(s, IsSpace);
    if a == |s| then
      assert AllSpace(s[..|s|]) by { assert s[..|s|] == s; }
      assert s[|s|..|s|] == [];
      []
    else
      TrimCore(s, a)
  }

  /** The trim starts where the leading whitespace ends, and only whitespace follows it. */
  lemma TrimAt(s: string)
    ensures var r, a := Trim(s), Span(s, IsSpace);
      a + |r| <= |s| && r == s[a..a + |r|] && AllSpace(s[a + |r|..])
  {
    if Span(s, IsSpace) == |s| {
      assert s[|s|..|s|] == [];
    }
  }

  /** Two strings whose characters agree on `p` everywhere have the same leading run of `p`. */
  lemma SpanAgree(s: string, t: string, p: char -> bool)
    requires |s| == |t|
    requires forall k :: 0 <= k < |s| ==> (p(s[k]) <==> p(t[k]))
    ensures Span(s, p) == Span(t, p)
  {
  }

  /** The trimmed infix when `s` has a non-whitespace character at `a`, the end of its leading pad. */
  function TrimCore(s: string, a: nat): (r: string)
    requires a < |s| && AllSpace(s[..a]) && !IsSpace(s[a])
    ensures r != [] && !IsSpace(r[0]) && !IsSpace(r[|r| - 1])
    ensures a + |r| <= |s| && r == s[a..a + |r|] && AllSpace(s[a + |r|..])
  {
    var b := TrailingSpaces(s);
    assert AllSpace(s[|s| - b..]) by {
      var t := s[|s| - b..];
      forall k | 0 <= k < |t| ensures IsSpace(t[k]) {
        assert t[k] == s[|s| - b + k];
      }
    }
    s[a..|s| - b]
  }

  /** A string that neither starts nor ends with whitespace is its own trim. */
  lemma TrimNoPad(s: string)
    requires s != [] ==> !IsSpace(s[0]) && !IsSpace(s[|s| - 1])
    ensures Trim(s) == s
  {
    if s != [] {
      assert Span(s, IsSpace) == 0;
      assert TrailingSpaces(s) == 0;
      assert s[0..|s|] == s;
    }
  }

  /** Trailing whitespace is what the trim removes. */
  lemma TrimTrailing(a: string, b: string)
    requires a != [] && !IsSpace(a[0]) && !IsSpace(a[|a| - 1])
    requires AllSpace(b)
    ensures Trim(a + b) == a
  {
    assert (a + b)[0] == a[0];
    assert Span(a + b, IsSpace) == 0;
    TrailingSuffix(a, b);
    assert (a + b)[0..|a|] == a;
  }

  /** What holds of every character of `s` holds of every character of its trim. */
  lemma TrimKeeps(s: string, p: char -> bool)
    requires forall k :: 0 <= k < |s| ==> p(s[k])
    ensures forall k :: 0 <= k < |Trim(s)| ==> p(Trim(s)[k])
  {
    var a := Span(s, IsSpace);
    if a < |s| {
      var r := TrimCore(s, a);
      assert forall k :: 0 <= k < |r| ==> r[k] == s[a + k];
    }
  }

  /** ASCII upper-casing of one character. */
  function UpperChar(c: char): char {
    if 'a' <= c <= 'z' then (c as int - 32) as char else c
  }

  predicate IsLower(c: char) {
    'a' <= c <= 'z'
  }

  /**
   * `str.upper()` restricted to ASCII letters: each lower-case letter becomes
   * the upper-case letter at the same place in the alphabet, every other
   * character is kept, and no lower-case letter is left.
   */
  function Upper(s: string): (r: string)
    ensures |r| == |s|
    ensures forall i :: 0 <= i < |s| ==> !IsLower(r[i])
    ensures forall i :: 0 <= i < |s| && IsLower(s[i]) ==>
      'A' <= r[i] <= 'Z' && r[i] as int - 'A' as int == s[i] as int - 'a' as int
    ensures forall i :: 0 <= i < |s| && !IsLower(s[i]) ==> r[i] == s[i]
  {
    seq(|s|, i requires 0 <= i < |s| => UpperChar(s[i]))
  }

  /**
   * What upper-casing keeps: digits and whitespace stay where they were, and
   * upper-casing again changes nothing.
   */
  lemma UpperProperties(s: string)
    ensures forall i :: 0 <= i < |s| ==> (IsDigit(Upper(s)[i]) <==> IsDigit(s[i]))
    ensures forall i :: 0 <= i < |s| ==> (IsSpace(Upper(s)[i]) <==> IsSpace(s[i]))
    ensures Upper(Upper(s)) == Upper(s)
  {
  }

  function DigitValue(c: char): nat
    requires IsDigit(c)
  {
    c as int - '0' as int
  }

  /** The number a string of decimal digits denotes (`float("0042")` is 42). */
  function DigitsValue(s: string): nat
    requires AllDigits(s)
  {
    if s == [] then 0 else DigitsValue(s[..|s| - 1]) * 10 + DigitValue(s[|s| - 1])
  }

  function Pow10(w: nat): (p: nat)
    ensures p >= 1
  {
    if w == 0 then 1 else 10 * Pow10(w - 1)
  }

  function DigitChar(d: nat): (c: char)
    requires d < 10
    ensures IsDigit(c) && DigitValue(c) == d
  {
    ('0' as int + d) as char
  }

  /** The `w` lowest decimal digits of `n`, zero-padded on the left (`%02d`, `%04d`). */
  function Pad(n: nat, w: nat): (r: string)
    ensures |r| == w && AllDigits(r)
  {
    if w == 0 then [] else Pad(n / 10, w - 1) + [DigitChar(n % 10)]
  }

  /** Reading back a zero-padded field gives the number, when it fits in its width. */
  lemma {:induction false} PadValue(n: nat, w: nat)
    requires n < Pow10(w)
    ensures DigitsValue(Pad(n, w)) == n
  {
    if w > 0 {
      var r := Pad(n, w);
      assert r[..|r| - 1] == Pad(n / 10, w - 1);
      PadValue(n / 10, w - 1);
    }
  }

  predicate NotDigit(c: char) {
    !IsDigit(c)
  }

  /**
   * `s[b..e]` is the first maximal run of digits of `s`: non-empty, all
   * digits, with no digit before it and none right after it.
   */
  ghost predicate IsFirstDigitRun(s: string, b: nat, e: nat) {
    && b < e <= |s|
    && AllDigits(s[b..e])
    && (forall i :: 0 <= i < b ==> !IsDigit(s[i]))
    && (e < |s| ==> !IsDigit(s[e]))
  }

  /** A string has at most one first maximal run of digits. */
  lemma FirstDigitRunUnique(s: string, b: nat, e: nat, b': nat, e': nat)
    requires IsFirstDigitRun(s, b, e) && IsFirstDigitRun(s, b', e')
    ensures b == b' && e == e'
  {
    RunDigits(s, b, e);
    RunDigits(s, b', e');
    assert IsDigit(s[b]) && IsDigit(s[b']);
  }

  lemma RunDigits(s: string, b: nat, e: nat)
    requires b <= e <= |s| && AllDigits(s[b..e])
    ensures forall k :: b <= k < e ==> IsDigit(s[k])
  {
    forall k | b <= k < e
      ensures IsDigit(s[k])
    {
      assert s[b..e][k - b] == s[k];
    }
  }

  /**
   * The first maximal run of digits in `s`, as a half-open index range: what
   * `re.search(r'(\d+)', s)` captures. There is none exactly when `s` has no
   * digit; otherwise the run is non-empty, all digits, preceded by no digit
   * and not followed by one.
   */
  function FirstDigitRun(s: string): (r: Option<(nat, nat)>)
    ensures r.None? <==> forall i :: 0 <= i < |s| ==> !IsDigit(s[i])
    ensures r.Some? ==> IsFirstDigitRun(s, r.value.0, r.value.1)
  {
    var b := Span(s, NotDigit);
    if b == |s| then None
    else
      var e := SpanFrom(s, b, IsDigit);
      assert AllDigits(s[b..e]) by {
        forall k | 0 <= k < e - b ensures IsDigit(s[b..e][k]) {
          assert s[b..e][k] == s[b + k];
        }
      }
      Some((b, e))
  }
}
