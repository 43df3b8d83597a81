/**
 The few JavaScript string primitives the calculator relies on, over
 `string` (a sequence of characters standing for UTF-16 code units of the
 Basic Multilingual Plane): the whitespace class shared by `trim()` and the
 regular-expression escape `\s`, `trim()` itself, `slice`, a global
 single-character `replace`, and the relational comparison `<` on strings.
 */
module JsString {

  /** WhiteSpace or LineTerminator in the sense of ECMAScript: the characters
      `trim()` removes and the class `\s` matches (Unicode 6.3 and later). */
  predicate IsSpace(c: char) {
    || c == '\t' || c == '\n' || c == '\U{000B}' || c == '\U{000C}' || c == '\r'
    || c == ' ' || c == '\U{00A0}' || c == '\U{1680}'
    || ('\U{2000}' <= c <= '\U{200A}')
    || c == '\U{2028}' || c == '\U{2029}' || c == '\U{202F}' || c == '\U{205F}'
    || c == '\U{3000}' || c == '\U{FEFF}'
  }

  /** Every character of `s` is whitespace. */
  predicate AllSpace(s: string) {
    forall i | 0 <= i < |s| :: IsSpace(s[i])
  }

  /** The first position from `i` on that does not hold whitespace, or
      `|s|` when there is none. */
  function SkipForward(s: string, i: nat): (k: nat)
    requires i <= |s|
    ensures i <= k <= |s|
    ensures forall j | i <= j < k :: IsSpace(s[j])
    ensures k < |s| ==> !IsSpace(s[k])
    decreases |s| - i
  {
    if i == |s| || !IsSpace(s[i]) then i else SkipForward(s, i + 1)
  }

  /** The position just after the last character before `j` that is not
      whitespace, or `0` when there is none. */
  function SkipBackward(s: string, j: nat): (k: nat)
    requires j <= |s|
    ensures k <= j
    ensures forall i | k <= i < j :: IsSpace(s[i])
    ensures 0 < k ==> !IsSpace(s[k - 1])
  {
    if j == 0 || !IsSpace(s[j - 1]) then j else SkipBackward(s, j - 1)
  }

  /** Number of whitespace characters `s` starts with. */
  function LeadingSpaces(s: string): (k: nat)
    ensures k <= |s|
    ensures forall i | 0 <= i < k :: IsSpace(s[i])
    ensures k < |s| ==> !IsSpace(s[k])
  {
    SkipForward(s, 0)
  }

  /** Number of whitespace characters `s` ends with. */
  function TrailingSpaces(s: string): (k: nat)
    ensures k <= |s|
    ensures forall i | |s| - k <= i < |s| :: IsSpace(s[i])
    ensures k < |s| ==> !IsSpace(s[|s| - 1 - k])
  {
    |s| - SkipBackward(s, |s|)
  }

  /** `r` sits in `s` at offset `a` with nothing but whitespace around it. */
  predicate TrimmedAt(s: string, r: string, a: int) {
    && 0 <= a <= |s| - |r|
    && (forall j | 0 <= j < |r| :: r[j] == s[a + j])
    && (forall i | 0 <= i < a :: IsSpace(s[i]))
    && (forall i | a + |r| <= i < |s| :: IsSpace(s[i]))
  }

  /** `s.trim()`: the leading and the trailing run of whitespace cut off. */
  function Trim(s: string): string {
    var a := LeadingSpaces(s);
    if a == |s| then []
    else
      var b := TrailingSpaces(s);
      assert a < |s| - b;
      s[a..|s| - b]
  }

  /** `trim()` leaves nothing exactly when `s` is all whitespace. */
  lemma TrimEmpty(s: string)
    ensures Trim(s) == [] <==> AllSpace(s)
  {
    var a := LeadingSpaces(s);
    if a < |s| {
      assert !IsSpace(s[a]);
    }
  }

  /** What `trim()` yields: the empty string exactly for all-whitespace
      input, and otherwise the infix of `s` that neither starts nor ends with
      whitespace and has only whitespace on either side of it. */
  lemma TrimSpec(s: string)
    ensures |Trim(s)| <= |s|
    ensures Trim(s) == [] <==> AllSpace(s)
    ensures Trim(s) != [] ==> !IsSpace(Trim(s)[0]) && !IsSpace(Trim(s)[|Trim(s)| - 1])
    ensures TrimmedAt(s, Trim(s), LeadingSpaces(s))
  {
    TrimEmpty(s);
    TrimByRuns(s);
    var a, b := LeadingSpaces(s), TrailingSpaces(s);
    var r := Trim(s);
    if a < |s| {
      assert |r| == |s| - b - a;
      assert r[0] == s[a] && r[|r| - 1] == s[|s| - 1 - b];
      assert forall j | 0 <= j < |r| :: r[j] == s[a + j];
    }
    assert TrimmedAt(s, r, a);
  }

  /** `trim()` cuts exactly the leading and the trailing run of whitespace. */
  lemma TrimByRuns(s: string)
    ensures LeadingSpaces(s) == |s| ==> Trim(s) == []
    ensures LeadingSpaces(s) < |s| ==>
              && LeadingSpaces(s) < |s| - TrailingSpaces(s)
              && Trim(s) == s[LeadingSpaces(s)..|s| - TrailingSpaces(s)]
  {
  }

  /** Resolves a relative `slice` index against a length: negative indices
      count from the end, and the result is clamped to `[0, len]`. */
  function RelativeIndex(i: int, len: nat): (k: nat)
    ensures k <= len
  {
    if i < 0 then (if len + i < 0 then 0 else len + i)
    else if i > len then len
    else i
  }

  /** `s.slice(start, end)`: with both bounds inside the string it is the
      infix between them, a negative `end` counts from the back, and
      `slice(0, -1)` drops exactly the last character. */
  function Slice(s: string, start: int, end: int): (r: string)
    ensures |r| <= |s|
    ensures 0 <= start <= end <= |s| ==> r == s[start..end]
    ensures end < 0 && 0 <= start <= |s| + end ==> r == s[start..|s| + end]
    ensures start == 0 && end == -1 && |s| > 0 ==> s == r + [s[|s| - 1]]
    ensures start == 0 && end == -1 && |s| == 0 ==> r == []
  {
    var from, to := RelativeIndex(start, |s|), RelativeIndex(end, |s|);
    if from < to then s[from..to] else []
  }

  /** `slice(0, -1)` undoes appending one character. */
  lemma SliceUndoesPush(s: string, c: char)
    ensures Slice(s + [c], 0, -1) == s
  {
  }

  /** `s.replace(/x/g, y)` for a one-character pattern `x` and replacement `y`:
      every occurrence of `x` becomes `y`, everything else stays put. */
  function ReplaceAll(s: string, x: char, y: char): (r: string)
    ensures |r| == |s|
    ensures forall i | 0 <= i < |s| :: r[i] == (if s[i] == x then y else s[i])
  {
    if |s| == 0 then []
    else [if s[0] == x then y else s[0]] + ReplaceAll(s[1..], x, y)
  }

  /** The relational comparison `a < b` on two strings: lexicographic order
      of their code units, a proper prefix coming first. */
  predicate Less(a: string, b: string) {
    if |b| == 0 then false
    else if |a| == 0 then true
    else if a[0] != b[0] then a[0] < b[0]
    else Less(a[1..], b[1..])
  }

  /** `a <= b` on strings, which JavaScript evaluates as `!(b < a)`. */
  predicate LessOrEqual(a: string, b: string) {
    !Less(b, a)
  }

  /** `a` comes before `b` when it is a proper prefix of `b` or when the
      first position at which they differ holds a smaller character in `a`. */
  ghost predicate LexicographicallyBefore(a: string, b: string) {
    || (|a| < |b| && a == b[..|a|])
    || exists i | 0 <= i < |a| && i < |b| :: a[..i] == b[..i] && a[i] < b[i]
  }

  /** Whatever the recursive comparison puts first comes first
      lexicographically. */
  lemma {:induction false} LessIsBefore(a: string, b: string)
    requires Less(a, b)
    ensures LexicographicallyBefore(a, b)
    decreases |a|
  {
    if |a| == 0 {
      assert a == b[..0];
    } else if a[0] != b[0] {
      assert a[..0] == b[..0];
    } else {
      LessIsBefore(a[1..], b[1..]);
      if |a| - 1 < |b| - 1 && a[1..] == b[1..][..|a| - 1] {
        assert a == [a[0]] + a[1..] && b[..|a|] == [b[0]] + b[1..][..|a| - 1];
      } else {
        var i :| 0 <= i < |a| - 1 && i < |b| - 1 && a[1..][..i] == b[1..][..i] && a[1..][i] < b[1..][i];
        assert a[..i + 1] == [a[0]] + a[1..][..i];
        assert b[..i + 1] == [b[0]] + b[1..][..i];
      }
    }
  }

  /** Whatever comes first lexicographically, the recursive comparison puts
      first. */
  lemma {:induction false} BeforeIsLess(a: string, b: string)
    requires LexicographicallyBefore(a, b)
    ensures Less(a, b)
    decreases |a|
  {
    if |a| > 0 && a[0] == b[0] {
      if |a| < |b| && a == b[..|a|] {
        assert a[1..] == b[1..][..|a| - 1];
      } else {
        var i :| 0 <= i < |a| && i < |b| && a[..i] == b[..i] && a[i] < b[i];
        assert i > 0;
        assert a[1..][..i - 1] == a[..i][1..] == b[..i][1..] == b[1..][..i - 1];
        assert a[1..][i - 1] < b[1..][i - 1];
      }
      BeforeIsLess(a[1..], b[1..]);
    }
  }

  /** The recursive comparison is exactly the textbook lexicographic order. */
  lemma LessIsLexicographic(a: string, b: string)
    ensures Less(a, b) <==> LexicographicallyBefore(a, b)
  {
    if Less(a, b) {
      LessIsBefore(a, b);
    }
    if LexicographicallyBefore(a, b) {
      BeforeIsLess(a, b);
    }
  }

  /** No string comes before itself. */
  lemma {:induction false} LessIrreflexive(a: string)
    ensures !Less(a, a)
    decreases |a|
  {
    if |a| > 0 {
      LessIrreflexive(a[1..]);
    }
  }
}
