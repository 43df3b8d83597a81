/**
 The defensive glyph normalisation in `calculate`: the multiplication sign,
 the division sign and the minus sign are rewritten to `*`, `/` and `-`
 by three successive global replacements.
 */
module Normalise {
  import JsString
  import Gate

  /** U+00D7 MULTIPLICATION SIGN. */
  const Times: char := '\U{00D7}'
  /** U+00F7 DIVISION SIGN. */
  const Divide: char := '\U{00F7}'
  /** U+2212 MINUS SIGN. */
  const Minus: char := '\U{2212}'

  predicate IsGlyph(c: char) {
    c == Times || c == Divide || c == Minus
  }

  /** The ASCII operator a single character stands for. */
  function Canonical(c: char): (d: char)
    ensures IsGlyph(c) ==> Gate.AllowedChar(d)
    ensures !IsGlyph(c) ==> d == c
  {
    if c == Times then '*'
    else if c == Divide then '/'
    else if c == Minus then '-'
    else c
  }

  /** `expr.replace(/×/g, '*').replace(/÷/g, '/').replace(/−/g, '-')`: the
      same characters in the same places, each glyph swapped for its
      ASCII operator. */
  function NormaliseGlyphs(expr: string): (r: string)
    ensures |r| == |expr|
    ensures forall i | 0 <= i < |expr| :: r[i] == Canonical(expr[i])
  {
    var times := JsString.ReplaceAll(expr, Times, '*');
    var divide := JsString.ReplaceAll(times, Divide, '/');
    JsString.ReplaceAll(divide, Minus, '-')
  }

  /** No glyph survives normalisation. */
  lemma NormalisedHasNoGlyph(expr: string)
    ensures forall i | 0 <= i < |NormaliseGlyphs(expr)| :: !IsGlyph(NormaliseGlyphs(expr)[i])
  {
  }

  /** Normalising twice is normalising once. */
  lemma NormaliseIdempotent(expr: string)
    ensures NormaliseGlyphs(NormaliseGlyphs(expr)) == NormaliseGlyphs(expr)
  {
  }

  /** A string without glyphs is left exactly as it is. */
  lemma NormaliseFixesGlyphFree(expr: string)
    requires forall i | 0 <= i < |expr| :: !IsGlyph(expr[i])
    ensures NormaliseGlyphs(expr) == expr
  {
  }

  /** After normalisation the gate accepts exactly the non-empty strings
      made of allowed characters and glyphs. */
  lemma GateAfterNormalise(expr: string)
    ensures Gate.SanitizeExpression(NormaliseGlyphs(expr))
        <==> |expr| > 0 && forall i | 0 <= i < |expr| :: Gate.AllowedChar(expr[i]) || IsGlyph(expr[i])
  {
  }
}
