/**
 The character gate `sanitizeExpression`: an anchored regular expression
 that accepts one or more characters of a single class (the digits, `+`,
 `-`, `*`, `/`, the parentheses, `.`, whitespace and `%`) and nothing else.
 It checks characters only; `"1++"` and `"(("` pass it.
 */
module Gate {
  import JsString

  /** One of the ASCII digits `0`-`9`. */
  predicate IsDigit(c: char) {
    '0' <= c <= '9'
  }

  /** One character of the gate's class, where whitespace is the class
      escape `\s`. */
  predicate AllowedChar(c: char) {
    || IsDigit(c)
    || c == '+' || c == '-' || c == '*' || c == '/'
    || c == '(' || c == ')' || c == '.'
    || JsString.IsSpace(c)
    || c == '%'
  }

  /** Every character of `s` is in the gate's class. */
  predicate AllAllowed(s: string) {
    forall i | 0 <= i < |s| :: AllowedChar(s[i])
  }

  /** `^C+$` matched against `expr`, anchored at both ends: one character of
      the class, then either the end of input or a further match of `C+`. */
  function SanitizeExpression(expr: string): (ok: bool)
    ensures ok <==> |expr| > 0 && AllAllowed(expr)
  {
    && |expr| > 0
    && AllowedChar(expr[0])
    && (|expr| == 1 || SanitizeExpression(expr[1..]))
  }

  /** Text made of the class's characters, joined, stays so, and only such
      text splits into such parts. */
  lemma AllAllowedConcat(a: string, b: string)
    ensures AllAllowed(a + b) <==> AllAllowed(a) && AllAllowed(b)
  {
    if AllAllowed(a + b) {
      assert forall i | 0 <= i < |a| :: a[i] == (a + b)[i];
      assert forall i | 0 <= i < |b| :: b[i] == (a + b)[|a| + i];
    }
    if AllAllowed(a) && AllAllowed(b) {
      assert forall i | 0 <= i < |a + b| :: (a + b)[i] == if i < |a| then a[i] else b[i - |a|];
    }
  }

  /** The gate is closed under concatenation: two accepted expressions
      joined are accepted. */
  lemma SanitizeConcat(a: string, b: string)
    requires SanitizeExpression(a) && SanitizeExpression(b)
    ensures SanitizeExpression(a + b)
  {
  }

  /** Every non-empty prefix of an accepted expression is accepted, which is
      what `backspace` relies on to keep a buffer inside the gate. */
  lemma SanitizePrefix(s: string, n: nat)
    requires SanitizeExpression(s) && 0 < n <= |s|
    ensures SanitizeExpression(s[..n])
  {
  }

  /** The gate refuses letters; in particular the display's error marker
      never passes it. */
  lemma LettersRejected(s: string, i: nat)
    requires i < |s| && ('a' <= s[i] <= 'z' || 'A' <= s[i] <= 'Z')
    ensures !SanitizeExpression(s)
  {
  }
}
