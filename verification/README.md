# Calculator expression buffer, in Dafny

A model of the logic of a browser calculator (`script.js`). The calculator keeps
the expression the user is typing in one text field, the display. Five things
act on it:

- three edits: `append`, `clearDisplay` and `backspace`;
- `calculate`, which does the following in order:
  - trims the display, and does nothing if the display is blank;
  - rewrites the glyphs `×`, `÷` and `−` to `*`, `/` and `-`;
  - refuses any text outside the character gate `sanitizeExpression`;
  - hands everything else to the host JavaScript evaluator;
- a keydown handler that maps each key to one of the actions above.

The display is a `string` (`Buffer.Display`). The text `"Error"` is also the
error state (`Buffer.ErrorMarker`). Every operation is a pure function from
the old display to the new one. The host evaluator is the parameter
`Calculator.Evaluator`. It is an arbitrary total function from the
expression text to an `Outcome`:

- a finite number, already rendered as text;
- a non-finite number;
- a non-number;
- an exception.

Every property below holds for every evaluator.

Modules, one per concern:

- `JsString` (`jsstring.dfy`) holds the JavaScript string primitives the code uses:
  - the whitespace class shared by `trim()` and the regex escape `\s`;
  - `trim()` and `slice`;
  - the global one-character `replace`;
  - the string comparison `<`, proved equal to lexicographic order.
- `Gate` (`gate.dfy`) holds the regex `^[0-9+\-*/().\s%]+$` as a recursive matcher, proved equal to "non-empty, and every character in the class".
- `Normalise` (`normalise.dfy`) holds the glyph rewriting, proved pointwise, length-preserving and idempotent.
- `Buffer` (`buffer.dfy`) holds the three edits and how they relate.
- `Calculator` (`calculator.dfy`) holds `calculate`:
  - the decision it makes before the evaluator is involved (`PlanFor`);
  - the evaluator's verdict (`Conclude`, `Classify`);
  - the new display (`Calculate`).
- `Keyboard` (`keyboard.dfy`) holds the key handler, one keydown (`Step`), a sequence of keydowns (`Run`), and the invariants that typing keeps.

## Model

| member | source | states |
|---|---|---|
| `JsString.TrimSpec` | script.js:26 | The trimmed text is empty exactly when the display is all whitespace. Otherwise it neither starts nor ends with whitespace. It is the infix of the display that starts after the leading run of whitespace and has only whitespace after it. |
| `JsString.Slice` | script.js:16 | With both bounds inside the string, `slice` is the infix between them, and a negative end counts from the back. `slice(0, -1)` drops exactly the last character of a non-empty string and gives `""` for `""`. |
| `JsString.SliceUndoesPush` | script.js:16 | `slice(0, -1)` after appending one character gives back the original string. |
| `JsString.ReplaceAll` | script.js:29 | A global one-character replace keeps the length. It changes exactly the occurrences of the pattern and leaves every other character in place. |
| `JsString.LessIsLexicographic` | script.js:71 | The string comparison `<` puts `a` before `b` exactly when `a` is a proper prefix of `b`, or when `a` has the smaller character at the first position where the two differ. |
| `JsString.LessIrreflexive` | script.js:71 | No string is `<` itself. |
| `Gate.SanitizeExpression` | script.js:19-23 | The anchored regex with a `+` accepts a string exactly when it is non-empty and every character is a digit, whitespace, or one of `+ - * / ( ) . %`. |
| `Gate.SanitizeConcat` | script.js:21 | Two accepted strings, joined, are accepted. |
| `Gate.SanitizePrefix` | script.js:21 | Every non-empty prefix of an accepted string is accepted. |
| `Gate.LettersRejected` | script.js:21 | A string that contains a Latin letter is refused. |
| `Normalise.Canonical` | script.js:29 | Each glyph maps to a character the gate accepts; every other character maps to itself. |
| `Normalise.NormaliseGlyphs` | script.js:29 | The three chained replacements keep the length and map each position through `Canonical`. |
| `Normalise.NormalisedHasNoGlyph` | script.js:29 | No `×`, `÷` or `−` survives normalisation. |
| `Normalise.NormaliseIdempotent` | script.js:29 | Normalising twice equals normalising once. |
| `Normalise.NormaliseFixesGlyphFree` | script.js:29 | A string without glyphs is returned unchanged. |
| `Normalise.GateAfterNormalise` | script.js:29-32 | After normalisation, the gate accepts exactly the non-empty strings made of allowed characters and glyphs. |
| `Buffer.Append` | script.js:5-8 | On the error marker, the display becomes exactly the appended text. Otherwise the old display is a prefix of the new one and the appended text is the rest. |
| `Buffer.Clear` | script.js:10-12 | The display is empty afterwards, whatever it held before. |
| `Buffer.Backspace` | script.js:14-17 | On the error marker, the display becomes empty. An empty display stays empty. Any other display loses exactly its last character. |
| `Buffer.BackspaceUndoesAppend` | script.js:5-17 | Backspace after appending one character restores the display, unless the old display was the error marker or the append spelled it. |
| `Buffer.AppendTwice` | script.js:5-8 | Two appends equal one append of the joined texts, unless the first append spelled the error marker. |
| `Buffer.SentinelCollision` | script.js:5-17 | The marker is an ordinary string held in the display itself. Appending `"r"` to `"Erro"` yields the error state, and a backspace then empties the display. |
| `Buffer.BackspaceShrinks` | script.js:14-17 | Backspace never lengthens the display and always shortens a non-empty one. |
| `Calculator.TrimKeepsForeign` | script.js:26-32 | Each character that is neither allowed nor a glyph occurs in the trimmed text exactly when it occurs in the display. |
| `Calculator.TrimKeepsSomeForeign` | script.js:26-32 | The display holds a foreign character exactly when its trimmed text does. |
| `Calculator.GateRefusesForeign` | script.js:29-32 | After normalisation, the gate accepts a text exactly when it is non-empty and holds no foreign character. |
| `Calculator.TrimmedCanonical` | script.js:26-29 | The normalised trimmed text starts in the display right after the leading whitespace, with only whitespace after it. It neither starts nor ends with whitespace, and each of its characters is the display's character with any glyph replaced. |
| `Calculator.PlanFor` | script.js:25-35 | The evaluator is skipped exactly when the display is blank after trimming. The display is refused exactly when it holds a foreign character. Any text handed to the evaluator passes the gate and is the trimmed, normalised display, as `TrimmedCanonicalAt` spells out. |
| `Calculator.Conclude` | script.js:37-50 | A number is shown exactly when the evaluator returns a finite number, and it is that number's text. The display is left alone exactly on a skip. The cause is "invalid characters" exactly on a refusal. |
| `Calculator.Classify` | script.js:25-51 | The same verdict in terms of the display: unchanged when blank, an invalid-characters failure when it holds a foreign character, otherwise the evaluator's result or failure. |
| `Calculator.Calculate` | script.js:25-51 | A blank display is left unchanged. A display with a foreign character becomes the error marker. When the trimmed, normalised display is evaluated, the new display is the text of the number if the evaluator returns a finite number, and the error marker otherwise. |
| `Calculator.CalculateOnError` | script.js:26-35 | Calculating on the error marker yields the error marker, with an invalid-characters cause, for every evaluator. |
| `Calculator.EvaluatorSeesOnlyGatedText` | script.js:29-41 | Two evaluators that agree on every text the gate accepts produce the same verdict and the same display from every display. The evaluator is never consulted on anything else. |
| `Calculator.TrimCommutesWithNormalise` | script.js:26-29 | Trimming and then normalising equals normalising and then trimming. |
| `Calculator.PlanIgnoresGlyphs` | script.js:26-32 | Normalising the display beforehand does not change the decision. |
| `Calculator.GlyphsAreTransparent` | script.js:25-51 | A display written with `×`, `÷` and `−` gives the same verdict and display as the same display written with `*`, `/` and `-`. |
| `Keyboard.DispatchAsWritten` | script.js:69-84 | The handler as written appends every key that starts with `0` to `8`, whatever follows, as well as `"9"` and the eight operator keys, each as its own text. Enter and `=` calculate, Backspace erases, and Delete, `c` and `C` clear. In each case these are the only such keys. |
| `Keyboard.Dispatch` | script.js:69-84 | With the intended digit test, only single digits and the eight operator characters are appended, each as its own text, and every appended text passes the gate. Enter and `=` calculate, Backspace erases, and Delete, `c` and `C` clear. In each case these are the only such keys. |
| `Keyboard.DigitKeyAsWrittenIff` | script.js:71 | The written test `key >= '0' && key <= '9'` accepts every key that starts with `0` to `8`, whatever follows, and the key `"9"`. It refuses every other key. |
| `Keyboard.AsWrittenDiffersExactly` | script.js:71 | The written handler and the intended one differ exactly on keys longer than one character that start with `0` to `8`. |
| `Keyboard.MultiCharDigitKeyEscapesGate` | script.js:71-72 | The written handler appends the key value `"0a"` as it is, and the gate refuses that text. |
| `Keyboard.Step` | script.js:69-84 | One keydown, with the intended digit test. An appended key follows `append`, replacing the error marker. Enter and `=` give the display `calculate` produces. Backspace empties the error marker, keeps an empty display empty, and otherwise drops the last character. A clear key empties the display, and any other key leaves it as it is. |
| `Keyboard.StepAsWritten` | script.js:69-84 | One keydown as written agrees with `Step` on every key except those longer than one character that start with `0` to `8`. Those it appends whole. |
| `Keyboard.EditPreservesAllowed` | script.js:69-84 | With the intended digit test, every keydown other than a calculation leaves a display of allowed characters made of allowed characters. |
| `Keyboard.StepPreservesWellFormed` | script.js:69-84 | With the intended digit test, a display that is the error marker or all allowed characters stays so after any keydown, provided the evaluator renders numbers with allowed characters. |
| `Keyboard.RunPreservesWellFormed` | script.js:69-84 | With the intended digit test, the same holds for any sequence of keydowns. |
| `Keyboard.EditingStaysAllowed` | script.js:69-84 | With the intended digit test, a sequence of keys that never calculates keeps a display of allowed characters made of allowed characters, whatever the evaluator. |
| `Keyboard.TypedNeverMarker` | script.js:5-8 | Appending the texts of digit and operator keys to any display other than the error marker never spells the error marker. |
| `Keyboard.TypingAppends` | script.js:71-72 | With the intended digit test, typing only digit and operator keys onto any display other than the error marker appends their texts in order. This includes displays outside the gate, such as a rendered `1e-7`. |
| `Keyboard.TypedDisplayPassesGate` | script.js:71-72 | With the intended digit test, a display built from empty by typing at least one digit or operator key passes `sanitizeExpression`. |

## Left out

- The evaluation `Function('"use strict"; return (' + expr + ')')()` (script.js:41) is dynamic code execution. It is the `Evaluator` parameter, and nothing is assumed about it.
- The evaluator's IEEE-754 numerics are not modelled (script.js:42-44): the `isFinite` test, the rounding `Math.round((result + Number.EPSILON) * 1e12) / 1e12`, and `String(...)`. A finite result arrives already rendered as text.
- `Keyboard.RunPreservesWellFormed` and `Keyboard.StepPreservesWellFormed` assume that the evaluator renders numbers with allowed characters only. JavaScript's `String` uses exponent notation for very small or very large values (`1e-7`, `1e+21`), and the gate refuses that text. Such a display is not covered by the invariant, and the next `calculate` turns it into the error marker. Because the numerics are not modelled, this is stated as a hypothesis and not claimed as a defect.
- DOM access is UI glue: the `display` and `buttons` lookups (script.js:2-3), the display's `value` property, and `preventDefault` in the key handler.
- Button click handling (script.js:53-66) is not modelled. Each button's text comes from page markup that is not part of this model, so nothing can be said about what a button appends.
- Characters are Unicode scalar values; JavaScript strings are UTF-16 code units. Characters outside the Basic Multilingual Plane are not modelled. For example, `slice(0, -1)` would split a surrogate pair, and the regex without the `u` flag would see two code units.
- Whitespace for `trim()` and `\s` is the fixed ECMAScript set of WhiteSpace and LineTerminator characters as of Unicode 6.3. Space separators added in later Unicode versions are not included.
- `key.toLowerCase() === 'c'` is modelled as the key being `"c"` or `"C"`. No other string lowercases to `"c"`, so the general case mapping is not modelled.
- JsString.Slice: the contract covers bounds inside the string, which include the one call the code makes (`slice(0, -1)`). Clamping of out-of-range bounds is in the body only.
- The error causes in `Calculator.Cause` are kept apart in the model only. The code shows all of them as the same `"Error"` text.

## Notes on the code

- The display holds gate characters or the error marker only while rendered numbers avoid exponent notation; see the hypothesis above.
- The gate refuses the empty string through the `+` of its regex (`Gate.SanitizeExpression`). `calculate` never reaches the gate with it, because it skips blank displays first.
- `append` adds whatever string it is given, not a single character, and the model does the same.
- `Step`, `Run` and the invariants about them use the intended digit test of `Keyboard.Dispatch`. The handler as written is `Keyboard.DispatchAsWritten` and `Keyboard.StepAsWritten`; see the findings.

## Findings

| source | as written | input that shows it | evidently intended | confidence | as-written member | corrected member |
|---|---|---|---|---|---|---|
| script.js:71 | `e.key >= '0' && e.key <= '9'` compares strings lexicographically. It therefore accepts every key value that starts with `0` to `8`, whatever its length, and appends the whole value. | the key value `"0a"`: appended as is, and then refused by the gate (`Keyboard.MultiCharDigitKeyEscapesGate`, `Keyboard.AsWrittenDiffersExactly`) | only the ten one-character digit keys are appended (the comment on line 70 says "digits") | low, not executed: only matters if a browser reports a multi-character key value starting with a digit | `Keyboard.DispatchAsWritten` | `Keyboard.Dispatch` |
