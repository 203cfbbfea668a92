# Flight panel text and layout

The program is a Raspberry Pi flight display. Once a minute it asks the OpenSky
Network for the state vectors of the aircraft in a box around London. It writes
the nine highest flights as `CALLSIGN  ALTITUDEft` lines and draws them on a
64x64 LED matrix with a 4x6 font.

This Dafny project models the two pieces that decide what the panel shows:

- **`FlightText`** (`FlightText.dfy`) builds the panel text from the fetched vectors. The
  steps are:
  - keep the vectors with a truthy callsign (`s[1]`) and a truthy barometric altitude
    (`s[7]`);
  - sort them by altitude, highest first, with Python's stable `sorted(..., reverse=True)`;
  - keep the first nine;
  - format each one as `f"{callsign.strip()[:7]:<7} {int(alt*3.28084):>5}ft\n"`;
  - fall back to the "No flights in area" and "API Error" texts;
  - `strip()` the whole text.

  `AccumulateText` is the accumulating loop of main.py:156-161. `BuildDisplayText` wraps it
  with the filter, the fallbacks and the final strip. It is proved equal to the
  specification function `DisplayText`, and the lemmas about the text are stated on that
  function.
- **`MatrixLayout`** (`MatrixLayout.dfy`) models `draw_text_on_matrix`. The graphics calls
  are recorded as a sequence of `DrawOp` values: a `Clear`, then one `DrawText` per
  newline-separated line at x = 1, y = 6 + 7·i, in white. `DrawTextOnMatrix` is the loop
  that moves `y_pos` down by 7. It is proved equal to the specification function
  `Drawing`. `RefreshPanel` chains the two, as one pass of the main loop does.
- **`PyText`** (`PyText.dfy`) holds the Python string built-ins the two use, as functions
  on `seq<char>`:
  - `str.strip` / `lstrip` / `rstrip`, with Python's `isspace` character set;
  - slicing `[:n]`;
  - the `<w` and `>w` alignments;
  - `split('\n')`;
  - `str(int)`.

  It also holds two specification devices that the program never calls: `Join`
  (`'\n'.join`), the inverse of `split`, and `Terminated`, the text the loop accumulates.
  They are used to state what the panel text looks like.

  How each is characterised:
  - `Take`, `LJust` and `RJust` by their contracts.
  - `Split` by its contract together with `JoinSplit`: its contract alone only says the
    pieces are newline-free and at least one.
  - `DecimalString` (`str`) by its contract together with `DecimalStringCanonical` (no
    leading zeros, from `NatDigits`' contract) and `DecimalRoundTrip` (its value).
  - `LStrip` and `RStrip` by their contracts together with `LStripSpec` and `RStripSpec`.
  - `Strip` by its contract, which gives only its two ends. Its content follows from its
    body, `LStrip(RStrip(s))`.
  - `Join` and `Terminated` through the round-trip lemmas `JoinSplit`, `SplitJoin` and
    `TerminatedIsJoin`.

The altitude is a Dafny `real`. `int()` is truncation toward zero, written out for
negative values. Callsigns are `seq<char>`.

## Model

| member | source | states |
|---|---|---|
| FlightText.Showable | main.py:150 | the comprehension's test `s[1] and s[7]`: a callsign that is present and non-empty, and an altitude that is present and non-zero; no ensures of its own, used by `Showables` and `ShowablesSingle` |
| FlightText.Showables | main.py:150 | a vector is kept exactly when it is in the answer with a non-empty callsign and a non-zero altitude; nothing else is kept (order and repeats are pinned by `ShowablesAppend`) |
| FlightText.ShowablesSingle | main.py:150 | a single vector passes exactly when it is showable |
| FlightText.ShowablesAppend | main.py:150 | the filter keeps the answer's order and multiplicity: filtering a concatenation concatenates the filtered parts |
| FlightText.SortDescending | main.py:149-152 | the ranking is highest altitude first and is a permutation of the filtered vectors |
| FlightText.SortStable | main.py:149-152 | vectors of equal altitude keep their order in the sort's input (the stability of `sorted`, kept under `reverse=True`) |
| FlightText.FilterCommutes | main.py:150 | picking the vectors of one altitude and filtering commute |
| FlightText.TiesKeepInputOrder | main.py:149-152 | in the ranking, the flights of each altitude appear in the order the answer had them (with `SortStable`) |
| FlightText.SortDescendingUnique | main.py:149-152 | any highest-first sequence with the same vectors per altitude, in the same order, is the ranking itself, so the ranking is exactly Python's stable reverse sort |
| FlightText.TopFlights | main.py:149-153 | at most nine flights are shown, all of them showable |
| FlightText.TopFlightsPrefix | main.py:149-153 | the shown flights are the first min(9, n) of the ranking, highest first; none are shown exactly when none pass the filter; with nine or fewer candidates all of them are shown |
| FlightText.TopFlightsFromInput | main.py:149-153 | every shown flight came in the answer and passes the filter |
| FlightText.TopFlightsAreHighest | main.py:149-153 | no candidate left out of the nine is higher than any flight shown |
| FlightText.AltitudeFeet | main.py:159 | `int(altitude_m * 3.28084)`; no ensures of its own, characterised by `TruncateTowardZero` and `AltitudeFeetMonotonic` |
| FlightText.TruncateTowardZero | main.py:159 | `int()` of a float: the integer part, truncated toward zero on both signs |
| FlightText.AltitudeFeetMonotonic | main.py:159 | a higher altitude in metres never shows fewer feet |
| FlightText.CallsignField | main.py:157 | the callsign field is always seven characters wide |
| FlightText.FormatLine | main.py:157-161 | the line `f"{callsign:<7} {altitude_ft:>5}ft"`; no ensures of its own, characterised by `ParseFormatLine`, `FormatLineEndsInFeet`, `FormatLineSingle` and `LineFitsColumns` |
| FlightText.ParseFormatLine | main.py:157-161 | reading a formatted line back recovers the callsign as shown (stripped, cut to seven) and the exact altitude in feet |
| FlightText.FormatLineEndsInFeet | main.py:161 | every line is at least 15 characters long and ends in the visible "ft" |
| FlightText.FormatLineSingle | main.py:157-161 | a line holds no newline when the shown part of its callsign holds none |
| FlightText.FirstLineAfterStrip | main.py:167 | the final `strip()` leaves the first line alone when its callsign has a visible character; when the callsign is only blanks, the line starts at the altitude digits |
| FlightText.Lines | main.py:156-161 | one line per shown flight; by its definition line k is `FormatLine` of flight k, and `LineEndsInFeet` and `LineSingle` carry the line facts over to it |
| FlightText.AccumulateText | main.py:156-161 | the loop leaves every formatted line followed by a newline, in ranking order |
| FlightText.RawText | main.py:146-165 | `display_text` before the strip: the fallback texts, or every line followed by a newline; no ensures of its own, tied to the join by `TerminatedIsJoin` and `DisplayTextIsStrippedBody` |
| FlightText.DisplayText | main.py:146-167 | the text handed to `draw_text_on_matrix`; no ensures of its own, characterised by `ApiErrorShownIff`, `NoFlightsShownIff`, `DisplayTextShape`, `DisplayLines` and `DisplayLineCount` |
| FlightText.BuildDisplayText | main.py:146-167 | the accumulating loop, the fallbacks and the final strip compute `DisplayText` |
| FlightText.StripShownLines | main.py:155-167 | the final `strip()` of the accumulated lines removes only the closing newline and the first line's leading blanks |
| FlightText.DisplayTextShape | main.py:155-167 | with flights to show, the panel text is their lines joined by newlines; the final `strip()` only takes the first line's leading blanks |
| FlightText.DisplayTextEndsInFeet | main.py:161-167 | with flights to show, the panel text ends in the "t" of "ft" |
| FlightText.DisplayTextFallbacks | main.py:162-167 | no answer or an empty one shows "API Error"; an answer with no candidates shows "No flights in area" |
| FlightText.ApiErrorShownIff | main.py:147-167 | "API Error" is shown if and only if there were no vectors at all: the fetch failed or the answer's `states` was `null` (both `None`), or the list was empty |
| FlightText.NoFlightsShownIff | main.py:147-167 | "No flights in area" is shown if and only if vectors came back but none passes the filter |
| FlightText.ShownLineSingle | main.py:157-167 | if no callsign among the nine shown holds a newline in its shown part, no shown line holds one, the first line included after the final strip |
| FlightText.DisplayLines | main.py:155-167 | if no callsign among the nine shown holds a newline in its shown part, splitting the panel text on newlines gives one line per shown flight, in ranking order |
| FlightText.FallbackIsOneLine | main.py:162-167 | either fallback text is a single line |
| FlightText.DisplayLineCount | main.py:146-167 | if no callsign among the nine shown holds a newline in its shown part, the panel text has between one and nine lines, one per shown flight when there are any |
| MatrixLayout.Placed | main.py:105-111 | line i is drawn at x = 1, baseline 6 + 7·i, in white, with the text of line i |
| MatrixLayout.Drawing | main.py:93-111 | nothing is drawn when the matrix or the font is missing; otherwise a clear comes first, then the placed lines of `text.split('\n')` |
| MatrixLayout.DrawTextOnMatrix | main.py:102-111 | the loop that advances `y_pos` by 7 per line issues exactly `Drawing` |
| MatrixLayout.DrawingKeepsText | main.py:105-111 | the drawn lines, joined by newlines, give back the whole text: nothing is lost or reordered |
| MatrixLayout.RefreshPanel | main.py:144-167 | one refresh draws `Drawing` of `DisplayText` of the fetched vectors |
| MatrixLayout.NineLinesOnPanel | main.py:148 | the 64 rows hold up to nine lines of the 4x6 font; a tenth line would fall below the matrix |
| MatrixLayout.PanelFitsRows | main.py:148-167 | if no callsign among the nine shown holds a newline in its shown part, every drawn line of the panel text lies within the 64 rows |
| MatrixLayout.LineFitsColumns | main.py:161 | a flight's line fits the 64 columns exactly when its altitude in feet is between -9999 and 99999 |
| PyText.LStrip | main.py:157 | the result of `lstrip()` is no longer than the text and does not start with whitespace |
| PyText.LStripSpec | main.py:157 | what `lstrip()` drops is all whitespace, and what it keeps is the rest of the text unchanged |
| PyText.RStrip | main.py:157 | the result of `rstrip()` is no longer than the text and does not end with whitespace |
| PyText.RStripSpec | main.py:157 | what `rstrip()` drops is all whitespace, and what it keeps is the start of the text unchanged |
| PyText.Strip | main.py:167 | the result of `strip()` neither starts nor ends with whitespace |
| PyText.StripJoinedLines | main.py:167 | stripping newline-terminated lines whose first and last lines end visibly drops only the final newline and the first line's leading blanks |
| PyText.Take | main.py:157 | `s[:7]` is the first seven characters, or all of a shorter `s` |
| PyText.LJust | main.py:161 | `<7` keeps the text and pads it with spaces on the right up to width 7 |
| PyText.RJust | main.py:161 | `>5` keeps the text and pads it with spaces on the left up to width 5 |
| PyText.TerminatedIsJoin | main.py:156-161 | the text the loop accumulates, each line followed by a newline, is the lines joined by newlines plus one trailing newline |
| PyText.Split | main.py:105 | `split('\n')` gives at least one piece, and no piece holds a newline |
| PyText.JoinSplit | main.py:105 | joining the pieces of a split with newlines gives the text back |
| PyText.SplitJoin | main.py:105 | splitting newline-free lines joined by newlines gives the lines back |
| PyText.DecimalString | main.py:161 | `str(n)` has a minus sign exactly when n is negative, and digits everywhere else |
| PyText.DecimalStringCanonical | main.py:161 | `str(n)` has no leading zeros: only "0" starts with a zero, and a minus sign is followed by a non-zero digit |
| PyText.DecimalRoundTrip | main.py:161 | `int(str(n)) == n` for every integer |
| PyText.DecimalStringFitsFive | main.py:161 | `str(n)` fits the five-character feet field exactly when -9999 <= n <= 99999 |

## Left out

- Fetching the vectors (`get_flight_data`, main.py:124-133) is left out: it is HTTP and JSON. The model takes its outcome as a parameter. `None` stands for both ways the function returns `None`: a failed request, and an answer whose `states` is `null` (`data.get('states', [])` at main.py:130). Either way the panel shows "API Error". `Some` holds the vectors, and a missing `states` key is `Some([])`.
- Matrix and font setup and the mock classes (main.py:10-41, 54-86) are left out. They are hardware wiring. The model takes whether the matrix and the font exist as two booleans.
- The mock-mode branch of `draw_text_on_matrix` (main.py:98-101) is left out. It only prints to the console.
- The `"Matrix not initialized."` message (main.py:95) is left out; `Drawing` only models that nothing is drawn then.
- The endless `while` loop, `time.sleep(60)`, the console messages and the clear on `KeyboardInterrupt` (main.py:142-180) are left out. `RefreshPanel` models one pass of the loop.
- FlightText.AltitudeFeet: 3.28084 is an exact rational, so the model does not capture the rounding of the IEEE 754 product. For products that land within one ulp of a whole number, the real program may truncate to a different integer.
- FlightText.Indexable: an answer whose arrays are too short for `s[1]`, or for `s[7]` after a truthy callsign, raises IndexError in the program. The model excludes it with this precondition instead of modelling the exception.
- Only fields 1 and 7 of a state vector are modelled, because the panel reads no others. The raw array's length is kept for the IndexError condition. A callsign is a string or `None`, and an altitude is a number or `None`. Other JSON types are not modelled.
- FlightText.DisplayLines: the one-line-per-flight property needs no newline in the shown callsigns of the nine flights on the panel. The program does not check for one. A newline in a shown callsign gives the panel an extra line for each newline.
- FlightText.DisplayLineCount: the bound of nine lines holds only under the same condition. For example, nine flights whose callsign is `"A\n\n\n\n\nB"` give 54 lines.
- MatrixLayout.PanelFitsRows: every line lands on the 64 rows only under the same condition. With newlines in shown callsigns, lines past the ninth are drawn below row 63.
- MatrixLayout.PanelFitsRows: separately, the model takes the row extent of a glyph from the "4x6" font name (six rows ending at the baseline). The font file itself is not part of this model.
- MatrixLayout.LineFitsColumns: likewise takes the advance of every glyph as four pixels from the "4x6" font name; the font's real advance widths are not part of this model.
