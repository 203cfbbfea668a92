/** How `draw_text_on_matrix` places the panel text on the 64x64 LED matrix with the
    4x6 font: one `DrawText` per newline-separated line, after a `Clear`. The graphics
    library calls are recorded as a sequence of drawing operations. */
module MatrixLayout {
  import opened PyText
  import opened FlightText

  datatype Color = Color(red: int, green: int, blue: int)

  /** `TEXT_COLOR`: white. */
  const TextColor := Color(255, 255, 255)

  const MatrixRows := 64
  const MatrixCols := 64
  /** The 4x6 font: every glyph is four pixels wide and six high. */
  const FontWidth := 4
  const FontHeight := 6
  const LeftMargin := 1
  /** The baseline of the first line, and how far each further line moves down. */
  const FirstBaseline := 6
  const LineAdvance := 7

  /** One call into the matrix: `matrix.Clear()` or `graphics.DrawText(matrix, font, x, y, color, text)`. */
  datatype DrawOp = Clear | DrawText(x: int, y: int, color: Color, text: string)

  /** The baseline of line `i` (counting from 0). */
  function Baseline(i: nat): int {
    FirstBaseline + LineAdvance * i
  }

  /** The text calls for `lines`, one per line, top to bottom. */
  function Placed(lines: seq<string>): (ops: seq<DrawOp>)
    ensures |ops| == |lines|
    ensures forall i :: 0 <= i < |lines| ==> ops[i] == DrawText(LeftMargin, Baseline(i), TextColor, lines[i])
  {
    if |lines| == 0 then []
    else Placed(lines[..|lines| - 1]) + [DrawText(LeftMargin, Baseline(|lines| - 1), TextColor, lines[|lines| - 1])]
  }

  /** What the matrix receives for `text`: nothing when the matrix or the font was never set up,
      otherwise a clear followed by the placed lines. */
  function Drawing(matrixReady: bool, fontReady: bool, text: string): (ops: seq<DrawOp>)
    ensures ops == [] <==> !(matrixReady && fontReady)
    ensures ops != [] ==> ops[0] == Clear && ops[1..] == Placed(Split(text))
  {
    if matrixReady && fontReady then [Clear] + Placed(Split(text)) else []
  }

  /** The real-matrix path of `draw_text_on_matrix`: the loop that moves `y_pos` down by
      seven pixels per line. */
  method DrawTextOnMatrix(matrixReady: bool, fontReady: bool, text: string) returns (ops: seq<DrawOp>)
    ensures ops == Drawing(matrixReady, fontReady, text)
  {
    ops := [];
    if !matrixReady || !fontReady {
      return;
    }
    ops := ops + [Clear];
    var lines := Split(text);
    var yPos := FirstBaseline;
    for i := 0 to |lines|
      invariant yPos == Baseline(i)
      invariant ops == [Clear] + Placed(lines[..i])
    {
      assert lines[..i + 1][..i] == lines[..i];
      ops := ops + [DrawText(LeftMargin, yPos, TextColor, lines[i])];
      yPos := yPos + LineAdvance;
    }
    assert lines[..|lines|] == lines;
  }

  /** The texts of the `DrawText` calls, in order. */
  function DrawnLines(ops: seq<DrawOp>): seq<string> {
    if |ops| == 0 then []
    else (if ops[0].DrawText? then [ops[0].text] else []) + DrawnLines(ops[1..])
  }

  lemma {:induction false} DrawnLinesAppend(a: seq<DrawOp>, b: seq<DrawOp>)
    ensures DrawnLines(a + b) == DrawnLines(a) + DrawnLines(b)
  {
    if |a| > 0 {
      assert (a + b)[1..] == a[1..] + b;
      DrawnLinesAppend(a[1..], b);
    } else {
      assert a + b == b;
    }
  }

  lemma {:induction false} DrawnLinesPlaced(lines: seq<string>)
    ensures DrawnLines(Placed(lines)) == lines
  {
    if |lines| > 0 {
      var n := |lines|;
      var last := DrawText(LeftMargin, Baseline(n - 1), TextColor, lines[n - 1]);
      assert Placed(lines) == Placed(lines[..n - 1]) + [last];
      DrawnLinesAppend(Placed(lines[..n - 1]), [last]);
      DrawnLinesPlaced(lines[..n - 1]);
      assert DrawnLines([last]) == [lines[n - 1]];
      assert lines[..n - 1] + [lines[n - 1]] == lines;
    }
  }

  /** Nothing of the text is lost or reordered: the drawn lines, joined by newlines,
      give the text back. */
  lemma DrawingKeepsText(text: string)
    ensures Join(DrawnLines(Drawing(true, true, text))) == text
  {
    var ops := Drawing(true, true, text);
    assert ops == [Clear] + Placed(Split(text));
    assert DrawnLines(ops) == DrawnLines(ops[1..]);
    DrawnLinesPlaced(Split(text));
    JoinSplit(text);
  }

  /** A line drawn at baseline `y` lies on the panel: its glyphs occupy the six rows
      ending at the baseline, `y - 5` to `y`. */
  predicate OnPanelRows(y: int) {
    0 <= y - (FontHeight - 1) && y < MatrixRows
  }

  /** One refresh of the panel: build the text from the state vectors and draw it. */
  method RefreshPanel(flightStates: Option<seq<StateVector>>, matrixReady: bool, fontReady: bool)
    returns (ops: seq<DrawOp>)
    requires flightStates.Some? ==> AllIndexable(flightStates.value)
    ensures ops == Drawing(matrixReady, fontReady, DisplayText(flightStates))
  {
    var text := BuildDisplayText(flightStates);
    ops := DrawTextOnMatrix(matrixReady, fontReady, text);
  }

  /** The 64 rows hold nine lines and no more: up to nine lines all fall on the matrix,
      and with ten or more the tenth is drawn below it. */
  lemma NineLinesOnPanel(lines: seq<string>)
    ensures (forall op :: op in Placed(lines) ==> OnPanelRows(op.y)) <==> |lines| <= MaxShown
  {
    var ops := Placed(lines);
    if |lines| <= MaxShown {
      forall op | op in ops ensures OnPanelRows(op.y) {
        var j :| 0 <= j < |ops| && ops[j] == op;
        assert op.y == Baseline(j);
      }
    } else {
      assert ops[MaxShown] in ops && ops[MaxShown].y == Baseline(MaxShown);
    }
  }

  /** Every line of the panel text falls on the 64 rows of the matrix, as long as no
      callsign among the nine shown holds a newline in its shown part. */
  lemma PanelFitsRows(flightStates: Option<seq<StateVector>>)
    requires flightStates.Some? ==> AllIndexable(flightStates.value)
    requires flightStates.Some? ==> ShownSingleLine(flightStates.value)
    ensures forall op :: op in Placed(Split(DisplayText(flightStates))) ==> OnPanelRows(op.y)
  {
    DisplayLineCount(flightStates);
    NineLinesOnPanel(Split(DisplayText(flightStates)));
  }

  /** A flight's line fits the 64 columns exactly when its altitude in feet takes at
      most five characters. */
  lemma LineFitsColumns(s: StateVector)
    requires Showable(s)
    ensures LeftMargin + FontWidth * |FormatLine(s)| <= MatrixCols
            <==> -9999 <= AltitudeFeet(s.baroAltitude.value) <= 99999
  {
    var digits := DecimalString(AltitudeFeet(s.baroAltitude.value));
    DecimalStringFitsFive(AltitudeFeet(s.baroAltitude.value));
    assert |FormatLine(s)| == CallsignWidth + 1 + |RJust(digits, FeetWidth)| + 2;
  }
}
