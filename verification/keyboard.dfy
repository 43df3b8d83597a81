/**
 The keydown handler: every key is mapped to one of appending the key's
 text, calculating, backspace, clearing, or nothing; and the display
 evolves by folding those actions over a sequence of keys.
 */
module Keyboard {
  import JsString
  import Gate
  import opened Buffer
  import Calculator

  /** What the handler does with a key. */
  datatype Action = Insert(text: string) | Evaluate | Erase | Reset | Ignore

  /** `['+','-','*','/','(',')','.','%'].includes(key)`. */
  predicate IsOperatorKey(key: string) {
    key in ["+", "-", "*", "/", "(", ")", ".", "%"]
  }

  /** The digit test as written, `key >= '0' && key <= '9'`: two string
      comparisons, not a test on one character. */
  predicate DigitKeyAsWritten(key: string) {
    !JsString.Less(key, "0") && JsString.LessOrEqual(key, "9")
  }

  /** The digit test as intended: the key is one of the characters `0`-`9`. */
  predicate DigitKey(key: string) {
    |key| == 1 && Gate.IsDigit(key[0])
  }

  /** The branch chain of the handler, given the outcome of its digit test.
      `key.toLowerCase() === 'c'` holds exactly for `"c"` and `"C"`. */
  function Handle(key: string, isDigit: bool): Action {
    if isDigit || IsOperatorKey(key) then Insert(key)
    else if key == "Enter" || key == "=" then Evaluate
    else if key == "Backspace" then Erase
    else if key == "Delete" || key == "c" || key == "C" then Reset
    else Ignore
  }

  /** The handler exactly as written, with the string-comparison digit test:
      it appends every key that starts with `0`-`8`, whatever follows, as
      well as `"9"` and the eight operator keys; the other actions belong to
      the same keys as in the intended handler. */
  function DispatchAsWritten(key: string): (a: Action)
    ensures a.Insert? ==> a.text == key
    ensures a.Insert? <==>
              || (|key| > 0 && '0' <= key[0] && (key[0] < '9' || key == "9"))
              || (|key| == 1 && key[0] in "+-*/().%")
    ensures a == Evaluate <==> key == "Enter" || key == "="
    ensures a == Erase <==> key == "Backspace"
    ensures a == Reset <==> key == "Delete" || key == "c" || key == "C"
  {
    DigitKeyAsWrittenIff(key);
    OperatorKeyIff(key);
    Handle(key, DigitKeyAsWritten(key))
  }

  /** The operator keys are the one-character strings of the eight
      operator characters. */
  lemma OperatorKeyIff(key: string)
    ensures IsOperatorKey(key) <==> |key| == 1 && key[0] in "+-*/().%"
  {
    if |key| == 1 {
      assert key == [key[0]];
    }
  }

  /** The handler with the intended digit test. Only single characters of
      the gate's class are ever appended, and each of the other actions
      belongs to exactly the keys listed for it. */
  function Dispatch(key: string): (a: Action)
    ensures a.Insert? ==> a.text == key && Gate.SanitizeExpression(key)
    ensures a.Insert? <==> |key| == 1 && (Gate.IsDigit(key[0]) || key[0] in "+-*/().%")
    ensures a == Evaluate <==> key == "Enter" || key == "="
    ensures a == Erase <==> key == "Backspace"
    ensures a == Reset <==> key == "Delete" || key == "c" || key == "C"
  {
    OperatorKeyIff(key);
    Handle(key, DigitKey(key))
  }

  /** The string comparisons accept every key that starts with `0`-`8`,
      whatever follows, and of the keys starting with `9` only `"9"`. */
  lemma DigitKeyAsWrittenIff(key: string)
    ensures DigitKeyAsWritten(key)
        <==> |key| > 0 && '0' <= key[0] && (key[0] < '9' || key == "9")
  {
    if |key| > 0 {
      if key[0] == '0' {
        assert !JsString.Less(key[1..], "0"[1..]);
      }
      if key[0] == '9' {
        assert JsString.Less("9", key) == JsString.Less("9"[1..], key[1..]);
        assert |key| > 1 ==> key != "9";
      }
    }
  }

  /** The two handlers part ways on precisely the keys longer than one
      character that start with `0`-`8`. */
  lemma AsWrittenDiffersExactly(key: string)
    ensures DispatchAsWritten(key) != Dispatch(key)
        <==> |key| > 1 && '0' <= key[0] <= '8'
  {
    DigitKeyAsWrittenIff(key);
  }

  /** A key value such as `"0a"` is appended by the handler as written, and
      the resulting text does not pass the gate. */
  lemma MultiCharDigitKeyEscapesGate()
    ensures DispatchAsWritten("0a") == Insert("0a")
    ensures !Gate.SanitizeExpression("0a")
    ensures Dispatch("0a") == Ignore
  {
  }

  /** What an action does to display `d`. */
  function Perform(d: Display, a: Action, eval: Calculator.Evaluator): Display {
    match a
    case Insert(text) => Append(d, text)
    case Evaluate => Calculator.Calculate(d, eval)
    case Erase => Backspace(d)
    case Reset => Clear(d)
    case Ignore => d
  }

  /** One keydown on display `d`, with the intended digit test: a key
      `Dispatch` appends is appended (replacing the error marker), Enter and
      `=` calculate, Backspace erases one character (or empties the error
      marker), Delete, `c` and `C` clear, and any other key changes
      nothing. */
  function Step(d: Display, key: string, eval: Calculator.Evaluator): (r: Display)
    ensures Dispatch(key).Insert? ==> r == if d == ErrorMarker then key else d + key
    ensures Dispatch(key) == Evaluate ==> r == Calculator.Calculate(d, eval)
    ensures Dispatch(key) == Erase && (d == ErrorMarker || d == []) ==> r == []
    ensures Dispatch(key) == Erase && d != ErrorMarker && d != [] ==> d == r + [d[|d| - 1]]
    ensures Dispatch(key) == Reset ==> r == []
    ensures Dispatch(key) == Ignore ==> r == d
  {
    Perform(d, Dispatch(key), eval)
  }

  /** One keydown as the handler is written. It agrees with `Step` except on
      keys longer than one character that start with `0`-`8`, which it
      appends whole. */
  function StepAsWritten(d: Display, key: string, eval: Calculator.Evaluator): (r: Display)
    ensures !(|key| > 1 && '0' <= key[0] <= '8') ==> r == Step(d, key, eval)
    ensures |key| > 1 && '0' <= key[0] <= '8' ==> r == Append(d, key)
  {
    AsWrittenDiffersExactly(key);
    DigitKeyAsWrittenIff(key);
    Perform(d, DispatchAsWritten(key), eval)
  }

  /** The display after a sequence of keydowns. */
  function Run(d: Display, keys: seq<string>, eval: Calculator.Evaluator): Display
    decreases |keys|
  {
    if |keys| == 0 then d else Step(Run(d, keys[..|keys| - 1], eval), keys[|keys| - 1], eval)
  }

  /** All the texts of `keys`, one after the other. */
  function Concat(keys: seq<string>): string
    decreases |keys|
  {
    if |keys| == 0 then [] else Concat(keys[..|keys| - 1]) + keys[|keys| - 1]
  }

  /** Either the error marker or text made only of the gate's characters
      (possibly none). */
  predicate WellFormed(d: Display) {
    d == ErrorMarker || Gate.AllAllowed(d)
  }

  /** An evaluator whose rendered numbers use only the gate's characters. */
  ghost predicate RendersAllowed(eval: Calculator.Evaluator) {
    forall s :: eval(s).Finite? ==> Gate.AllAllowed(eval(s).text)
  }

  /** The error marker is not made of the gate's characters. */
  lemma ErrorMarkerNotAllowed()
    ensures !Gate.AllAllowed(ErrorMarker)
  {
    assert !Gate.AllowedChar(ErrorMarker[0]);
  }

  /** Every edit other than calculating turns a display of the gate's
      characters into another one. */
  lemma EditPreservesAllowed(d: Display, key: string, eval: Calculator.Evaluator)
    requires Gate.AllAllowed(d) && Dispatch(key) != Evaluate
    ensures Gate.AllAllowed(Step(d, key, eval))
  {
  }

  /** A keydown keeps the display well formed, and every edit other than
      calculating leaves text made only of the gate's characters. */
  lemma StepPreservesWellFormed(d: Display, key: string, eval: Calculator.Evaluator)
    requires WellFormed(d) && RendersAllowed(eval)
    ensures WellFormed(Step(d, key, eval))
    ensures Dispatch(key) != Evaluate && Dispatch(key) != Ignore ==> Gate.AllAllowed(Step(d, key, eval))
  {
  }

  /** From a well-formed display, any sequence of keys leaves a well-formed
      display, provided the evaluator renders numbers with the gate's
      characters. */
  lemma {:induction false} RunPreservesWellFormed(d: Display, keys: seq<string>, eval: Calculator.Evaluator)
    requires WellFormed(d) && RendersAllowed(eval)
    ensures WellFormed(Run(d, keys, eval))
    decreases |keys|
  {
    if |keys| > 0 {
      var init, last := keys[..|keys| - 1], keys[|keys| - 1];
      RunPreservesWellFormed(d, init, eval);
      StepPreservesWellFormed(Run(d, init, eval), last, eval);
    }
  }

  /** Keys that never calculate keep a display of the gate's characters
      inside the gate's characters, whatever the evaluator. */
  lemma {:induction false} EditingStaysAllowed(d: Display, keys: seq<string>, eval: Calculator.Evaluator)
    requires Gate.AllAllowed(d)
    requires forall i | 0 <= i < |keys| :: Dispatch(keys[i]) != Evaluate
    ensures Gate.AllAllowed(Run(d, keys, eval))
    decreases |keys|
  {
    if |keys| > 0 {
      var init, last := keys[..|keys| - 1], keys[|keys| - 1];
      assert forall i | 0 <= i < |init| :: init[i] == keys[i];
      EditingStaysAllowed(d, init, eval);
      EditPreservesAllowed(Run(d, init, eval), last, eval);
    }
  }

  /** Concatenation regroups; stated on its own so that the inductive step
      below does not have to rediscover it among the display facts. */
  lemma AppendAssociative(a: string, b: string, c: string)
    ensures (a + b) + c == a + (b + c)
  {
  }

  /** Typing one digit or operator key onto any display other than the
      error marker appends the key's text. */
  lemma TypedStep(d: Display, key: string, eval: Calculator.Evaluator)
    requires d != ErrorMarker && Dispatch(key).Insert?
    ensures Step(d, key, eval) == d + key
  {
  }

  /** Text that ends in one of the gate's characters is not the error
      marker. */
  lemma EndsAllowedNotMarker(s: string)
    requires |s| > 0 && Gate.AllowedChar(s[|s| - 1])
    ensures s != ErrorMarker
  {
    assert !Gate.AllowedChar(ErrorMarker[|ErrorMarker| - 1]);
  }

  /** Appending the texts of digit and operator keys to a display other
      than the error marker never spells the error marker. */
  lemma TypedNeverMarker(d: Display, keys: seq<string>)
    requires d != ErrorMarker
    requires forall i | 0 <= i < |keys| :: Dispatch(keys[i]).Insert?
    ensures d + Concat(keys) != ErrorMarker
  {
    if |keys| > 0 {
      var last := keys[|keys| - 1];
      var s := d + Concat(keys);
      assert Dispatch(last).Insert?;
      assert s == (d + Concat(keys[..|keys| - 1])) + last;
      assert s[|s| - 1] == last[0];
      EndsAllowedNotMarker(s);
    }
  }

  /** Typing only digit and operator keys onto any display other than the
      error marker appends their texts in order. */
  lemma {:induction false} TypingAppends(d: Display, keys: seq<string>, eval: Calculator.Evaluator)
    requires d != ErrorMarker
    requires forall i | 0 <= i < |keys| :: Dispatch(keys[i]).Insert?
    ensures Run(d, keys, eval) == d + Concat(keys)
    decreases |keys|
  {
    if |keys| == 0 {
      assert d + [] == d;
    } else {
      var init, last := keys[..|keys| - 1], keys[|keys| - 1];
      assert forall i | 0 <= i < |init| :: init[i] == keys[i];
      var before := Run(d, init, eval);
      TypingAppends(d, init, eval);
      TypedNeverMarker(d, init);
      TypedStep(before, last, eval);
      AppendAssociative(d, Concat(init), last);
    }
  }

  /** A display built from empty by typing at least one digit or operator
      key passes the gate. */
  lemma TypedDisplayPassesGate(keys: seq<string>, eval: Calculator.Evaluator)
    requires |keys| > 0
    requires forall i | 0 <= i < |keys| :: Dispatch(keys[i]).Insert?
    ensures Gate.SanitizeExpression(Run("", keys, eval))
  {
    TypingAppends("", keys, eval);
    EditingStaysAllowed("", keys, eval);
    assert |keys[|keys| - 1]| == 1;
  }
}
