/**
 The display buffer and the three edits the user makes to it: `append`,
 `clearDisplay` and `backspace`. The buffer is a plain string; the text
 `"Error"` doubles as the error state, so it is recognised by content.
 */
module Buffer {
  import JsString

  type Display = string

  /** The sentinel `calculate` writes when anything goes wrong. */
  const ErrorMarker: Display := "Error"

  /** `append(value)`: an error display is first emptied, then `value` is
      concatenated at the end. */
  function Append(d: Display, value: string): (r: Display)
    ensures d == ErrorMarker ==> r == value
    ensures d != ErrorMarker ==> |r| == |d| + |value| && r[..|d|] == d && r[|d|..] == value
  {
    var base := if d == ErrorMarker then "" else d;
    base + value
  }

  /** `clearDisplay()`: the empty display, whatever came before. */
  function Clear(d: Display): (r: Display)
    ensures |r| == 0
  {
    ""
  }

  /** `backspace()`: an error display is emptied; otherwise `slice(0, -1)`
      drops the last character, and an empty display stays empty. */
  function Backspace(d: Display): (r: Display)
    ensures d == ErrorMarker ==> r == []
    ensures d != ErrorMarker && d != [] ==> d == r + [d[|d| - 1]]
    ensures d == [] ==> r == []
  {
    if d == ErrorMarker then "" else JsString.Slice(d, 0, -1)
  }

  /** `backspace` undoes the `append` of one character, unless the buffer
      was the error marker or the append happened to spell it. */
  lemma BackspaceUndoesAppend(d: Display, c: char)
    requires d != ErrorMarker && d + [c] != ErrorMarker
    ensures Backspace(Append(d, [c])) == d
  {
  }

  /** Appending twice is appending the concatenation, as long as the first
      step does not produce the error marker. */
  lemma AppendTwice(d: Display, u: string, v: string)
    requires Append(d, u) != ErrorMarker
    ensures Append(Append(d, u), v) == Append(d, u + v)
  {
  }

  /** Because the sentinel lives in-band, a buffer that spells `"Error"`
      by appends is taken for the error state: backspace then empties it. */
  lemma SentinelCollision()
    ensures Append("Erro", "r") == ErrorMarker
    ensures Backspace(Append("Erro", "r")) == []
  {
  }

  /** Backspace never lengthens the buffer, and shortens every non-empty
      one. */
  lemma BackspaceShrinks(d: Display)
    ensures |Backspace(d)| <= |d|
    ensures d != [] ==> |Backspace(d)| < |d|
  {
  }
}
