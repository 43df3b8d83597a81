/**
 `calculate`: trim the display, do nothing when that leaves nothing, rewrite
 the operator glyphs, refuse anything outside the character gate, and
 otherwise hand the expression to the host evaluator, showing its rendered
 number or the error marker.

 The evaluator itself (a dynamically built function, IEEE-754 arithmetic,
 rounding to twelve fractional digits and `String(...)`) is not modelled: it
 is a parameter of type `Evaluator`, and every property here holds for any
 evaluator whatsoever.
 */
module Calculator {
  import JsString
  import Gate
  import Normalise
  import opened Buffer

  /** What the evaluation of an expression can end in. */
  datatype Outcome =
    | Finite(text: string)   // a finite number, already rounded and rendered
    | NonFinite              // Infinity, -Infinity or NaN
    | NotNumber              // a result whose `typeof` is not 'number'
    | Threw                  // the evaluation raised an exception

  /** The host evaluator, as an arbitrary total function. */
  type Evaluator = string -> Outcome

  /** Why a calculation ended in the error marker. The display does not
      tell these apart; the model keeps them apart. */
  datatype Cause = InvalidCharacters | EvaluationFailed | NonFiniteResult | NotANumber

  /** How a calculation ends: the display untouched, a number shown, or a
      failure. */
  datatype Verdict = Unchanged | Shown(text: string) | Failed(cause: Cause)

  /** What `calculate` decides before the evaluator is involved. */
  datatype Plan = Skip | Reject | Evaluate(expr: string)

  /** A character neither the gate nor the normalisation accepts. */
  predicate Foreign(c: char) {
    !Gate.AllowedChar(c) && !Normalise.IsGlyph(c)
  }

  /** `s` holds a character neither the gate nor the normalisation
      accepts. */
  predicate HasForeign(s: string) {
    exists i | 0 <= i < |s| :: Foreign(s[i])
  }

  /** `s` is `d` with whitespace dropped from both ends (starting at offset
      `a`) and every glyph replaced by its ASCII operator; `s` itself neither
      starts nor ends with whitespace. */
  ghost predicate TrimmedCanonicalAt(d: string, s: string, a: int) {
    && 0 <= a <= |d| - |s|
    && (|s| > 0 ==> !JsString.IsSpace(s[0]) && !JsString.IsSpace(s[|s| - 1]))
    && (forall i | 0 <= i < a :: JsString.IsSpace(d[i]))
    && (forall i | a + |s| <= i < |d| :: JsString.IsSpace(d[i]))
    && forall j | 0 <= j < |s| :: s[j] == Normalise.Canonical(d[a + j])
  }

  /** Trimming removes only whitespace, which is never foreign, so each
      foreign character occurs in the trimmed text exactly when it occurs in
      the display. */
  lemma TrimKeepsForeign(d: Display)
    ensures forall c | Foreign(c) :: c in d <==> c in JsString.Trim(d)
  {
    var expr := JsString.Trim(d);
    var a := JsString.LeadingSpaces(d);
    JsString.TrimSpec(d);
    forall c | Foreign(c)
      ensures c in d <==> c in expr
    {
      if c in d {
        var i :| 0 <= i < |d| && d[i] == c;
        assert expr[i - a] == c;
      }
      if c in expr {
        var j :| 0 <= j < |expr| && expr[j] == c;
        assert d[a + j] == c;
      }
    }
  }

  /** Hence the display and its trimmed text hold a foreign character
      together. */
  lemma TrimKeepsSomeForeign(d: Display)
    ensures HasForeign(d) <==> HasForeign(JsString.Trim(d))
  {
    var expr := JsString.Trim(d);
    TrimKeepsForeign(d);
    if i :| 0 <= i < |d| && Foreign(d[i]) {
      assert d[i] in expr;
    }
    if j :| 0 <= j < |expr| && Foreign(expr[j]) {
      assert expr[j] in d;
    }
  }

  /** After normalisation the gate accepts a text exactly when it is
      non-empty and holds no foreign character. */
  lemma GateRefusesForeign(expr: string)
    ensures Gate.SanitizeExpression(Normalise.NormaliseGlyphs(expr)) <==> |expr| > 0 && !HasForeign(expr)
  {
    Normalise.GateAfterNormalise(expr);
  }

  /** The normalised trimmed text sits in the display as
      `TrimmedCanonicalAt` describes. */
  lemma TrimmedCanonical(d: Display)
    ensures TrimmedCanonicalAt(d, Normalise.NormaliseGlyphs(JsString.Trim(d)), JsString.LeadingSpaces(d))
  {
    var expr := JsString.Trim(d);
    var a := JsString.LeadingSpaces(d);
    JsString.TrimSpec(d);
    var norm := Normalise.NormaliseGlyphs(expr);
    if |norm| > 0 {
      assert norm[0] == Normalise.Canonical(expr[0]);
      assert norm[|norm| - 1] == Normalise.Canonical(expr[|expr| - 1]);
    }
    assert TrimmedCanonicalAt(d, norm, a);
  }

  /** The decision of `calculate`: whitespace-only displays are skipped,
      displays holding a foreign character are refused, and everything else
      is evaluated as its trimmed, normalised text, which always passes the
      gate. */
  function PlanFor(d: Display): (p: Plan)
    ensures p.Skip? <==> JsString.AllSpace(d)
    ensures p.Reject? <==> HasForeign(d)
    ensures p.Evaluate? ==> Gate.SanitizeExpression(p.expr)
    ensures p.Evaluate? ==> TrimmedCanonicalAt(d, p.expr, JsString.LeadingSpaces(d))
  {
    var expr := JsString.Trim(d);
    JsString.TrimEmpty(d);
    TrimKeepsSomeForeign(d);
    TrimmedCanonical(d);
    GateRefusesForeign(expr);
    if expr == [] then Skip
    else
      var norm := Normalise.NormaliseGlyphs(expr);
      if Gate.SanitizeExpression(norm) then Evaluate(norm) else Reject
  }

  /** How a plan ends once the evaluator has been heard, if it is heard at
      all. */
  function Conclude(p: Plan, eval: Evaluator): (v: Verdict)
    ensures v.Unchanged? <==> p.Skip?
    ensures v == Failed(InvalidCharacters) <==> p.Reject?
    ensures v.Shown? <==> p.Evaluate? && eval(p.expr).Finite?
    ensures v.Shown? ==> eval(p.expr) == Finite(v.text)
  {
    match p
    case Skip => Unchanged
    case Reject => Failed(InvalidCharacters)
    case Evaluate(expr) =>
      match eval(expr)
      case Finite(text) => Shown(text)
      case NonFinite => Failed(NonFiniteResult)
      case NotNumber => Failed(NotANumber)
      case Threw => Failed(EvaluationFailed)
  }

  /** The outcome of `calculate`, with the reason for any failure. */
  function Classify(d: Display, eval: Evaluator): (v: Verdict)
    ensures v.Unchanged? <==> JsString.AllSpace(d)
    ensures v == Failed(InvalidCharacters) <==> HasForeign(d)
    ensures v.Shown? ==> PlanFor(d).Evaluate? && eval(PlanFor(d).expr) == Finite(v.text)
    ensures v.Failed? && v.cause != InvalidCharacters ==>
              PlanFor(d).Evaluate? && !eval(PlanFor(d).expr).Finite?
  {
    Conclude(PlanFor(d), eval)
  }

  /** `calculate()`: the new display. A whitespace-only display is left as
      it is; one holding a foreign character becomes the error marker;
      otherwise the display shows the evaluator's rendered number, or the
      error marker when the evaluator fails. */
  function Calculate(d: Display, eval: Evaluator): (r: Display)
    ensures JsString.AllSpace(d) ==> r == d
    ensures HasForeign(d) ==> r == ErrorMarker
    ensures !JsString.AllSpace(d) ==>
              || r == ErrorMarker
              || (PlanFor(d).Evaluate? && eval(PlanFor(d).expr) == Finite(r))
    ensures PlanFor(d).Evaluate? ==>
              r == (if eval(PlanFor(d).expr).Finite? then eval(PlanFor(d).expr).text else ErrorMarker)
  {
    match Classify(d, eval)
    case Unchanged => d
    case Shown(text) => text
    case Failed(_) => ErrorMarker
  }

  /** Calculating on the error marker keeps the error marker, whatever the
      evaluator would have said. */
  lemma CalculateOnError(eval: Evaluator)
    ensures Classify(ErrorMarker, eval) == Failed(InvalidCharacters)
    ensures Calculate(ErrorMarker, eval) == ErrorMarker
  {
    assert Foreign(ErrorMarker[0]);
  }

  /** The evaluator is only ever consulted on text that passes the gate:
      two evaluators that agree on every such text lead to the same display
      from every starting display. */
  lemma EvaluatorSeesOnlyGatedText(d: Display, e1: Evaluator, e2: Evaluator)
    requires forall s :: Gate.SanitizeExpression(s) ==> e1(s) == e2(s)
    ensures Classify(d, e1) == Classify(d, e2)
    ensures Calculate(d, e1) == Calculate(d, e2)
  {
  }

  /** Where the trim cuts depends only on where the whitespace is, so two
      strings with whitespace in the same places are cut at the same
      offsets. */
  lemma SameSpacesSameTrim(s: string, t: string)
    requires |s| == |t|
    requires forall i | 0 <= i < |s| :: JsString.IsSpace(s[i]) <==> JsString.IsSpace(t[i])
    ensures JsString.LeadingSpaces(s) == JsString.LeadingSpaces(t)
    ensures JsString.TrailingSpaces(s) == JsString.TrailingSpaces(t)
  {
  }

  /** Normalisation never turns whitespace into something else or
      something else into whitespace. */
  lemma NormaliseKeepsSpaces(d: string)
    ensures forall i | 0 <= i < |d| ::
      JsString.IsSpace(d[i]) <==> JsString.IsSpace(Normalise.NormaliseGlyphs(d)[i])
  {
  }

  /** Normalising a piece is taking the piece of the normalised text. */
  lemma NormaliseSlice(d: string, lo: nat, hi: nat)
    requires lo <= hi <= |d|
    ensures Normalise.NormaliseGlyphs(d)[lo..hi] == Normalise.NormaliseGlyphs(d[lo..hi])
  {
  }

  /** Normalisation leaves the runs of whitespace at both ends as they
      are. */
  lemma NormaliseKeepsRuns(d: Display)
    ensures JsString.LeadingSpaces(Normalise.NormaliseGlyphs(d)) == JsString.LeadingSpaces(d)
    ensures JsString.TrailingSpaces(Normalise.NormaliseGlyphs(d)) == JsString.TrailingSpaces(d)
  {
    NormaliseKeepsSpaces(d);
    SameSpacesSameTrim(d, Normalise.NormaliseGlyphs(d));
  }

  /** Trimming and normalising commute: glyphs and their ASCII operators
      are never whitespace. */
  lemma TrimCommutesWithNormalise(d: Display)
    ensures JsString.Trim(Normalise.NormaliseGlyphs(d)) == Normalise.NormaliseGlyphs(JsString.Trim(d))
  {
    var n := Normalise.NormaliseGlyphs(d);
    NormaliseKeepsRuns(d);
    JsString.TrimByRuns(d);
    JsString.TrimByRuns(n);
    var a, b := JsString.LeadingSpaces(d), JsString.TrailingSpaces(d);
    if a < |d| {
      NormaliseSlice(d, a, |d| - b);
    }
  }

  /** The plan for a display does not change when the display's glyphs
      are normalised beforehand. */
  lemma PlanIgnoresGlyphs(d: Display)
    ensures PlanFor(Normalise.NormaliseGlyphs(d)) == PlanFor(d)
  {
    var t := JsString.Trim(d);
    TrimCommutesWithNormalise(d);
    Normalise.NormaliseIdempotent(t);
  }

  /** Typing the ASCII operators instead of the glyphs makes no difference:
      normalising the whole display first yields the same outcome. */
  lemma GlyphsAreTransparent(d: Display, eval: Evaluator)
    ensures Classify(Normalise.NormaliseGlyphs(d), eval) == Classify(d, eval)
    ensures Calculate(Normalise.NormaliseGlyphs(d), eval) == Calculate(d, eval)
  {
    var n := Normalise.NormaliseGlyphs(d);
    PlanIgnoresGlyphs(d);
    assert Classify(n, eval) == Conclude(PlanFor(d), eval);
    if JsString.AllSpace(d) {
      assert n == d;
    }
  }
}
