/** What the panel shows for one OpenSky `/states/all` answer (main.py:146-167):
    keep the state vectors with a callsign and a barometric altitude, rank them by
    altitude, highest first, keep the top nine and write one fixed-width line per
    flight, or fall back to "API Error" / "No flights in area". */
module FlightText {
  import opened PyText

  datatype Option<T> = None | Some(value: T)

  /** One entry of the response's `states` list: how many fields the raw array holds,
      field 1 (the callsign) and field 7 (the barometric altitude in metres). The other
      fields are never read by the panel. */
  datatype StateVector = StateVector(width: nat, callsign: Option<string>, baroAltitude: Option<real>)

  /** What a reader of one panel line can recover: the callsign as shown and the altitude in feet. */
  datatype PanelEntry = PanelEntry(callsign: string, feet: int)

  const MaxShown: nat := 9
  const CallsignWidth: nat := 7
  const FeetWidth: nat := 5
  const MetresToFeet: real := 3.28084
  const ApiErrorText: string := "\n\n      API Error"
  const NoFlightsText: string := "\n\n  No flights in area"

  // Python truthiness of the two fields: None and "" are false, None and 0 are false.
  predicate HasCallsign(s: StateVector) { s.callsign.Some? && s.callsign.value != "" }
  predicate HasAltitude(s: StateVector) { s.baroAltitude.Some? && s.baroAltitude.value != 0.0 }
  predicate Showable(s: StateVector) { HasCallsign(s) && HasAltitude(s) }

  /** The filter reads field 1 of every vector and, because `and` short-circuits,
      field 7 only of those whose callsign is truthy; shorter arrays raise IndexError. */
  predicate Indexable(s: StateVector) { s.width > 1 && (HasCallsign(s) ==> s.width > 7) }

  predicate AllIndexable(states: seq<StateVector>) {
    forall k :: 0 <= k < |states| ==> Indexable(states[k])
  }

  /** The sort key `x[7]`; the sort only ever sees vectors whose altitude is present. */
  function Altitude(s: StateVector): real {
    if s.baroAltitude.Some? then s.baroAltitude.value else 0.0
  }

  // ---------------------------------------------------------------- filter

  /** `[s for s in states if s[1] and s[7]]`. */
  function Showables(states: seq<StateVector>): (r: seq<StateVector>)
    ensures forall x :: x in r <==> x in states && Showable(x)
    ensures forall k :: 0 <= k < |r| ==> Showable(r[k])
    ensures |r| <= |states|
  {
    if |states| == 0 then []
    else
      assert forall x :: x in states <==> x == states[0] || x in states[1..];
      (if Showable(states[0]) then [states[0]] else []) + Showables(states[1..])
  }

  /** A vector alone passes exactly when it is showable. */
  lemma ShowablesSingle(x: StateVector)
    ensures Showables([x]) == if Showable(x) then [x] else []
  {
    assert [x][1..] == [];
  }

  /** The filter keeps the order and the multiplicity of the answer: filtering a
      concatenation filters each part and concatenates the results. */
  lemma {:induction false} ShowablesAppend(a: seq<StateVector>, b: seq<StateVector>)
    ensures Showables(a + b) == Showables(a) + Showables(b)
  {
    if |a| == 0 {
      assert a + b == b;
    } else {
      assert (a + b)[0] == a[0];
      assert (a + b)[1..] == a[1..] + b;
      ShowablesAppend(a[1..], b);
    }
  }

  // ---------------------------------------------------------------- sort

  predicate NonIncreasing(t: seq<StateVector>) {
    forall i, j :: 0 <= i < j < |t| ==> Altitude(t[i]) >= Altitude(t[j])
  }

  /** Places `x` before the first element whose altitude is not above its own. */
  function Insert(x: StateVector, t: seq<StateVector>): (r: seq<StateVector>)
    requires NonIncreasing(t)
    ensures NonIncreasing(r)
    ensures multiset(r) == multiset(t) + multiset{x}
  {
    if |t| == 0 then [x]
    else if Altitude(x) >= Altitude(t[0]) then [x] + t
    else
      var rest := Insert(x, t[1..]);
      InsertBelowHead(x, t, rest);
      [t[0]] + rest
  }

  /** Putting the head back in front of a vector inserted into the tail keeps the order. */
  lemma InsertBelowHead(x: StateVector, t: seq<StateVector>, rest: seq<StateVector>)
    requires |t| > 0 && NonIncreasing(t) && Altitude(x) < Altitude(t[0])
    requires NonIncreasing(rest) && multiset(rest) == multiset(t[1..]) + multiset{x}
    ensures NonIncreasing([t[0]] + rest)
    ensures multiset([t[0]] + rest) == multiset(t) + multiset{x}
  {
    assert t == [t[0]] + t[1..];
    forall k | 0 <= k < |rest| ensures Altitude(rest[k]) <= Altitude(t[0]) {
      assert rest[k] in multiset(rest);
      if rest[k] != x {
        assert rest[k] in multiset(t[1..]);
        var j :| 0 <= j < |t[1..]| && t[1..][j] == rest[k];
        assert t[j + 1] == rest[k];
      }
    }
  }

  /** `sorted(t, key=lambda x: x[7], reverse=True)`: a stable sort, highest altitude first. */
  function SortDescending(t: seq<StateVector>): (r: seq<StateVector>)
    ensures NonIncreasing(r)
    ensures multiset(r) == multiset(t)
  {
    if |t| == 0 then []
    else
      assert t == [t[0]] + t[1..];
      Insert(t[0], SortDescending(t[1..]))
  }

  /** The vectors of `t` whose altitude is `a`, in the order `t` has them. */
  function WithAltitude(t: seq<StateVector>, a: real): seq<StateVector>
  {
    if |t| == 0 then []
    else (if Altitude(t[0]) == a then [t[0]] else []) + WithAltitude(t[1..], a)
  }

  lemma {:induction false} WithAltitudeMember(t: seq<StateVector>, a: real, y: StateVector)
    requires y in WithAltitude(t, a)
    ensures y in t && Altitude(y) == a
  {
    WithAltitudeCons(t[0], t[1..], a);
    assert t == [t[0]] + t[1..];
    if !(y == t[0] && Altitude(t[0]) == a) {
      WithAltitudeMember(t[1..], a, y);
    }
  }

  lemma {:induction false} WithAltitudeAppend(t: seq<StateVector>, u: seq<StateVector>, a: real)
    ensures WithAltitude(t + u, a) == WithAltitude(t, a) + WithAltitude(u, a)
  {
    if |t| == 0 {
      assert t + u == u;
    } else {
      var head := if Altitude(t[0]) == a then [t[0]] else [];
      assert (t + u)[0] == t[0];
      assert (t + u)[1..] == t[1..] + u;
      WithAltitudeAppend(t[1..], u, a);
      assert WithAltitude(t + u, a) == head + WithAltitude(t[1..] + u, a);
      assert WithAltitude(t, a) == head + WithAltitude(t[1..], a);
    }
  }

  /** Taking one altitude's vectors and filtering commute. */
  lemma {:induction false} FilterCommutes(t: seq<StateVector>, a: real)
    ensures Showables(WithAltitude(t, a)) == WithAltitude(Showables(t), a)
  {
    if |t| > 0 {
      var x, rest := t[0], t[1..];
      var here := if Altitude(x) == a then [x] else [];
      var kept := if Showable(x) then [x] else [];
      assert WithAltitude(t, a) == here + WithAltitude(rest, a);
      assert Showables(t) == kept + Showables(rest);
      ShowablesAppend(here, WithAltitude(rest, a));
      WithAltitudeAppend(kept, Showables(rest), a);
      ShowablesSingle(x);
      WithAltitudeCons(x, [], a);
      assert [x] + [] == [x];
      FilterCommutes(rest, a);
    }
  }

  lemma WithAltitudeCons(x: StateVector, t: seq<StateVector>, a: real)
    ensures WithAltitude([x] + t, a) == (if Altitude(x) == a then [x] else []) + WithAltitude(t, a)
  {
    assert ([x] + t)[1..] == t;
  }

  lemma {:induction false} InsertWithAltitude(x: StateVector, t: seq<StateVector>, a: real)
    requires NonIncreasing(t)
    ensures WithAltitude(Insert(x, t), a)
            == (if Altitude(x) == a then [x] else []) + WithAltitude(t, a)
  {
    if |t| == 0 {
      WithAltitudeCons(x, t, a);
    } else if Altitude(x) >= Altitude(t[0]) {
      WithAltitudeCons(x, t, a);
    } else {
      var rest := Insert(x, t[1..]);
      assert Insert(x, t) == [t[0]] + rest;
      WithAltitudeCons(t[0], rest, a);
      InsertWithAltitude(x, t[1..], a);
      WithAltitudeCons(t[0], t[1..], a);
      assert t == [t[0]] + t[1..];
    }
  }

  /** Stability: flights of equal altitude keep the order they arrived in. */
  lemma {:induction false} SortStable(t: seq<StateVector>, a: real)
    ensures WithAltitude(SortDescending(t), a) == WithAltitude(t, a)
  {
    if |t| > 0 {
      SortStable(t[1..], a);
      InsertWithAltitude(t[0], SortDescending(t[1..]), a);
    }
  }

  /** Flights of equal altitude are ranked in the order they came in the answer. */
  lemma TiesKeepInputOrder(states: seq<StateVector>, a: real)
    ensures WithAltitude(SortDescending(Showables(states)), a) == Showables(WithAltitude(states, a))
  {
    SortStable(Showables(states), a);
    FilterCommutes(states, a);
  }

  /** In a highest-first sequence nothing is above the head. */
  lemma HeadIsHighest(t: seq<StateVector>, y: StateVector)
    requires NonIncreasing(t) && y in t
    ensures Altitude(y) <= Altitude(t[0])
  {
    var j :| 0 <= j < |t| && t[j] == y;
    if j > 0 {
      assert Altitude(t[0]) >= Altitude(t[j]);
    }
  }

  /** A vector of the head's group of `t1` lies in `t2`, so it is not above `t2`'s head. */
  lemma HeadNotAbove(t1: seq<StateVector>, t2: seq<StateVector>)
    requires |t1| > 0 && |t2| > 0 && NonIncreasing(t2)
    requires WithAltitude(t1, Altitude(t1[0])) == WithAltitude(t2, Altitude(t1[0]))
    ensures Altitude(t1[0]) <= Altitude(t2[0])
  {
    var k := Altitude(t1[0]);
    WithAltitudeCons(t1[0], t1[1..], k);
    assert t1 == [t1[0]] + t1[1..];
    assert t1[0] in WithAltitude(t2, k);
    WithAltitudeMember(t2, k, t1[0]);
    HeadIsHighest(t2, t1[0]);
  }

  lemma HeadsAgree(t1: seq<StateVector>, t2: seq<StateVector>)
    requires |t1| > 0 && |t2| > 0 && NonIncreasing(t1) && NonIncreasing(t2)
    requires WithAltitude(t1, Altitude(t1[0])) == WithAltitude(t2, Altitude(t1[0]))
    requires WithAltitude(t1, Altitude(t2[0])) == WithAltitude(t2, Altitude(t2[0]))
    ensures t1[0] == t2[0]
  {
    HeadNotAbove(t1, t2);
    HeadNotAbove(t2, t1);
    var k := Altitude(t1[0]);
    assert Altitude(t2[0]) == k;
    HeadOfHeadGroup(t1);
    HeadOfHeadGroup(t2);
  }

  lemma HeadOfHeadGroup(t: seq<StateVector>)
    requires |t| > 0
    ensures |WithAltitude(t, Altitude(t[0]))| > 0 && WithAltitude(t, Altitude(t[0]))[0] == t[0]
  {
  }

  lemma TailGroupsAgree(t1: seq<StateVector>, t2: seq<StateVector>, a: real)
    requires |t1| > 0 && |t2| > 0 && t1[0] == t2[0]
    requires WithAltitude(t1, a) == WithAltitude(t2, a)
    ensures WithAltitude(t1[1..], a) == WithAltitude(t2[1..], a)
  {
    assert t1 == [t1[0]] + t1[1..] && t2 == [t2[0]] + t2[1..];
    WithAltitudeCons(t1[0], t1[1..], a);
    WithAltitudeCons(t2[0], t2[1..], a);
    var p := if Altitude(t1[0]) == a then [t1[0]] else [];
    var w1, w2 := WithAltitude(t1[1..], a), WithAltitude(t2[1..], a);
    assert p + w1 == p + w2;
    assert w1 == (p + w1)[|p|..] && w2 == (p + w2)[|p|..];
  }

  /** Two highest-first sequences that agree, altitude by altitude, on which
      vectors they hold and in what order, are the same sequence. */
  lemma {:induction false} GroupsDetermineSorted(t1: seq<StateVector>, t2: seq<StateVector>)
    requires NonIncreasing(t1) && NonIncreasing(t2)
    requires forall a :: WithAltitude(t1, a) == WithAltitude(t2, a)
    ensures t1 == t2
    decreases |t1|
  {
    if |t1| == 0 || |t2| == 0 {
      if |t1| > 0 { HeadOfHeadGroup(t1); }
      if |t2| > 0 { HeadOfHeadGroup(t2); }
    } else {
      HeadsAgree(t1, t2);
      forall a ensures WithAltitude(t1[1..], a) == WithAltitude(t2[1..], a) {
        TailGroupsAgree(t1, t2, a);
      }
      GroupsDetermineSorted(t1[1..], t2[1..]);
      assert t1 == [t1[0]] + t1[1..] && t2 == [t2[0]] + t2[1..];
    }
  }

  /** The ranking is exactly Python's stable reverse sort: highest first, ties in
      arrival order, and nothing else qualifies. */
  lemma SortDescendingUnique(t: seq<StateVector>, u: seq<StateVector>)
    requires NonIncreasing(u)
    requires forall a :: WithAltitude(u, a) == WithAltitude(t, a)
    ensures u == SortDescending(t)
  {
    forall a ensures WithAltitude(u, a) == WithAltitude(SortDescending(t), a) {
      SortStable(t, a);
    }
    GroupsDetermineSorted(u, SortDescending(t));
  }

  // ---------------------------------------------------------------- top nine

  /** `sorted([...], key=..., reverse=True)[:9]`. */
  function TopFlights(states: seq<StateVector>): (r: seq<StateVector>)
    ensures |r| <= MaxShown
    ensures forall k :: 0 <= k < |r| ==> Showable(r[k])
  {
    var ranked := SortDescending(Showables(states));
    assert forall k :: 0 <= k < |ranked| ==> ranked[k] in multiset(Showables(states));
    if |ranked| <= MaxShown then ranked else ranked[..MaxShown]
  }

  /** Ranking neither adds nor drops a vector, so it has as many as the filter kept. */
  lemma RankedLength(states: seq<StateVector>)
    ensures |SortDescending(Showables(states))| == |Showables(states)|
  {
    var ranked := SortDescending(Showables(states));
    assert |multiset(ranked)| == |multiset(Showables(states))|;
  }

  /** At most nine flights are shown, and they are the first nine of the ranking,
      highest first; none is shown only when no vector passes the filter. */
  lemma TopFlightsPrefix(states: seq<StateVector>)
    ensures var n := |Showables(states)|;
            |TopFlights(states)| == if n <= MaxShown then n else MaxShown
    ensures TopFlights(states) == SortDescending(Showables(states))[..|TopFlights(states)|]
    ensures NonIncreasing(TopFlights(states))
    ensures TopFlights(states) == [] <==> Showables(states) == []
    ensures |Showables(states)| <= MaxShown ==>
              multiset(TopFlights(states)) == multiset(Showables(states))
  {
    var ranked := SortDescending(Showables(states));
    RankedLength(states);
    var top := TopFlights(states);
    if |ranked| <= MaxShown {
      assert top == ranked;
      assert ranked[..|top|] == ranked;
    } else {
      assert top == ranked[..MaxShown];
      PrefixNonIncreasing(ranked, MaxShown);
    }
  }

  lemma PrefixNonIncreasing(t: seq<StateVector>, n: nat)
    requires n <= |t| && NonIncreasing(t)
    ensures NonIncreasing(t[..n])
  {
    assert forall k :: 0 <= k < n ==> t[..n][k] == t[k];
  }

  /** A flight is shown only if it came in the answer with a non-empty callsign
      and a non-zero altitude. */
  lemma TopFlightsFromInput(states: seq<StateVector>, x: StateVector)
    requires x in TopFlights(states)
    ensures x in states && Showable(x)
  {
    var ranked := SortDescending(Showables(states));
    assert x in ranked;
    assert x in multiset(Showables(states));
  }

  /** No flight left out of the top nine is higher than a flight shown. */
  lemma TopFlightsAreHighest(states: seq<StateVector>, x: StateVector, y: StateVector)
    requires x in Showables(states) && x !in TopFlights(states) && y in TopFlights(states)
    ensures Altitude(x) <= Altitude(y)
  {
    var ranked := SortDescending(Showables(states));
    var top := TopFlights(states);
    assert x in multiset(ranked);
    var i :| 0 <= i < |ranked| && ranked[i] == x;
    var j :| 0 <= j < |top| && top[j] == y;
    assert top == ranked[..|top|];
    assert i >= |top|;
  }

  // ---------------------------------------------------------------- one line

  /** `int(x)` for a float: the integer part, truncated toward zero. */
  function TruncateTowardZero(x: real): (n: int)
    ensures 0.0 <= x ==> 0 <= n && n as real <= x < n as real + 1.0
    ensures x < 0.0 ==> n <= 0 && n as real - 1.0 < x <= n as real
  {
    if x >= 0.0 then x.Floor else -((-x).Floor)
  }

  /** `int(altitude_m * 3.28084)`, over exact reals. */
  function AltitudeFeet(metres: real): int {
    TruncateTowardZero(metres * MetresToFeet)
  }

  /** A higher altitude never shows fewer feet. */
  lemma AltitudeFeetMonotonic(m1: real, m2: real)
    requires m1 <= m2
    ensures AltitudeFeet(m1) <= AltitudeFeet(m2)
  {
    var x1, x2 := m1 * MetresToFeet, m2 * MetresToFeet;
    assert x1 <= x2;
    if 0.0 <= x1 {
      assert x1.Floor <= x2.Floor;
    } else if x2 < 0.0 {
      assert (-x2).Floor <= (-x1).Floor;
    }
  }

  /** `f"{callsign:<7}"` of `state[1].strip()[:7]`. */
  function CallsignField(callsign: string): (r: string)
    ensures |r| == CallsignWidth
  {
    LJust(Take(Strip(callsign), CallsignWidth), CallsignWidth)
  }

  /** `f"{callsign:<7} {altitude_ft:>5}ft"`. */
  function FormatLine(s: StateVector): string
    requires Showable(s)
  {
    CallsignField(s.callsign.value) + " " + RJust(DecimalString(AltitudeFeet(s.baroAltitude.value)), FeetWidth) + "ft"
  }

  predicate IsDecimal(s: string) {
    |s| >= 1 && (s[0] == '-' || IsDigit(s[0])) && forall i :: 0 < i < |s| ==> IsDigit(s[i])
  }

  /** Reads a panel line back: the first seven characters are the callsign field,
      then a space, then the feet right-aligned, then "ft". */
  function ParseLine(line: string): Option<PanelEntry> {
    if |line| < CallsignWidth + 3 || line[CallsignWidth] != ' ' || line[|line| - 2..] != "ft" then None
    else
      var digits := LStrip(line[CallsignWidth + 1..|line| - 2]);
      if IsDecimal(digits) then Some(PanelEntry(RStrip(line[..CallsignWidth]), ParseDecimal(digits)))
      else None
  }

  lemma {:induction false} RStripPadded(s: string, w: nat)
    ensures RStrip(LJust(s, w)) == RStrip(s)
    decreases w
  {
    var p := LJust(s, w);
    if |s| < w {
      assert p[..|p| - 1] == LJust(s, w - 1);
      RStripPadded(s, w - 1);
    } else {
      assert p == s;
    }
  }

  /** A line gives back the callsign as shown (stripped, cut to seven characters,
      trailing blanks of the cut not visible) and the altitude in feet. */
  lemma ParseFormatLine(s: StateVector)
    requires Showable(s)
    ensures ParseLine(FormatLine(s))
            == Some(PanelEntry(RStrip(Take(Strip(s.callsign.value), CallsignWidth)),
                               AltitudeFeet(s.baroAltitude.value)))
  {
    var line := FormatLine(s);
    var field := CallsignField(s.callsign.value);
    var digits := DecimalString(AltitudeFeet(s.baroAltitude.value));
    var feet := RJust(digits, FeetWidth);
    assert line == field + " " + feet + "ft";
    assert line[..CallsignWidth] == field;
    assert line[CallsignWidth] == ' ';
    assert line[|line| - 2..] == "ft";
    assert line[CallsignWidth + 1..|line| - 2] == feet;
    assert LStrip(feet) == digits by {
      assert feet == feet[..|feet| - |digits|] + digits;
      assert !IsSpace(digits[0]);
      LStripAppend(digits, []);
      assert LStrip(digits) == digits;
      LStripPrefixSpaces(feet[..|feet| - |digits|], digits);
    }
    RStripPadded(Take(Strip(s.callsign.value), CallsignWidth), CallsignWidth);
    DecimalRoundTrip(AltitudeFeet(s.baroAltitude.value));
  }

  lemma {:induction false} LStripPrefixSpaces(p: string, s: string)
    requires forall i :: 0 <= i < |p| ==> IsSpace(p[i])
    requires s == [] || !IsSpace(s[0])
    ensures LStrip(p + s) == s
  {
    if |p| > 0 {
      assert (p + s)[1..] == p[1..] + s;
      LStripPrefixSpaces(p[1..], s);
    } else {
      assert p + s == s;
    }
  }

  /** The first line loses its leading blanks to the final `strip()`: it is unchanged
      when the callsign has a visible character, and starts at the feet when it has none. */
  lemma FirstLineAfterStrip(s: StateVector)
    requires Showable(s)
    ensures Strip(s.callsign.value) != [] ==> LStrip(FormatLine(s)) == FormatLine(s)
    ensures Strip(s.callsign.value) == [] ==>
              LStrip(FormatLine(s)) == DecimalString(AltitudeFeet(s.baroAltitude.value)) + "ft"
  {
    if Strip(s.callsign.value) != [] {
      VisibleCallsignKeepsLine(s);
    } else {
      BlankCallsignLine(s);
    }
  }

  lemma VisibleCallsignKeepsLine(s: StateVector)
    requires Showable(s) && Strip(s.callsign.value) != []
    ensures LStrip(FormatLine(s)) == FormatLine(s)
  {
    var c := Take(Strip(s.callsign.value), CallsignWidth);
    var line := FormatLine(s);
    assert line[0] == c[0];
    assert !IsSpace(line[0]);
  }

  lemma BlankCallsignLine(s: StateVector)
    requires Showable(s) && Strip(s.callsign.value) == []
    ensures LStrip(FormatLine(s)) == DecimalString(AltitudeFeet(s.baroAltitude.value)) + "ft"
  {
    var digits := DecimalString(AltitudeFeet(s.baroAltitude.value));
    var feet := RJust(digits, FeetWidth);
    var line := FormatLine(s);
    var pad := feet[..|feet| - |digits|];
    assert feet == pad + digits;
    assert line == (CallsignField(s.callsign.value) + " " + pad) + (digits + "ft");
    LStripPrefixSpaces(CallsignField(s.callsign.value) + " " + pad, digits + "ft");
  }

  /** The callsign of `s` fits on one line of the panel: its shown part holds no newline. */
  predicate SingleLineCallsign(s: StateVector) {
    s.callsign.Some? ==> '\n' !in Take(Strip(s.callsign.value), CallsignWidth)
  }

  /** No flight that makes the top nine has a newline in the shown part of its callsign;
      vectors left off the panel may hold anything. */
  predicate ShownSingleLine(states: seq<StateVector>) {
    forall k :: 0 <= k < |TopFlights(states)| ==> SingleLineCallsign(TopFlights(states)[k])
  }

  /** Every line ends in "ft"; even after losing its leading blanks it still does. */
  lemma FormatLineEndsInFeet(s: StateVector)
    requires Showable(s)
    ensures |FormatLine(s)| >= CallsignWidth + 1 + FeetWidth + 2
    ensures FormatLine(s)[|FormatLine(s)| - 2..] == "ft"
    ensures !IsSpace(FormatLine(s)[|FormatLine(s)| - 1])
    ensures |LStrip(FormatLine(s))| > 0 && LStrip(FormatLine(s))[|LStrip(FormatLine(s))| - 1] == 't'
  {
    var line := FormatLine(s);
    var digits := DecimalString(AltitudeFeet(s.baroAltitude.value));
    assert line == CallsignField(s.callsign.value) + " " + RJust(digits, FeetWidth) + "ft";
    NonSpaceLine(line);
  }

  /** A line holds no newline when the shown part of its callsign does not. */
  lemma FormatLineSingle(s: StateVector)
    requires Showable(s) && SingleLineCallsign(s)
    ensures '\n' !in FormatLine(s)
  {
    var digits := DecimalString(AltitudeFeet(s.baroAltitude.value));
    LJustKeepsOut(Take(Strip(s.callsign.value), CallsignWidth), CallsignWidth, '\n');
    assert '\n' !in digits by {
      forall i | 0 <= i < |digits| ensures digits[i] != '\n' {
        assert i == 0 || IsDigit(digits[i]);
      }
    }
    RJustKeepsOut(digits, FeetWidth, '\n');
  }

  /** The lines the loop writes, one per shown flight, in order. */
  function Lines(flights: seq<StateVector>): (r: seq<string>)
    requires forall k :: 0 <= k < |flights| ==> Showable(flights[k])
    ensures |r| == |flights|
  {
    seq(|flights|, k requires 0 <= k < |flights| => FormatLine(flights[k]))
  }

  /** Line `k` of the list ends in the visible "t" of "ft", and still does after
      losing its leading blanks. */
  lemma LineEndsInFeet(flights: seq<StateVector>, k: nat)
    requires forall j :: 0 <= j < |flights| ==> Showable(flights[j])
    requires k < |flights|
    ensures |Lines(flights)[k]| > 0 && Lines(flights)[k][|Lines(flights)[k]| - 1] == 't'
    ensures |LStrip(Lines(flights)[k])| > 0 && LStrip(Lines(flights)[k])[|LStrip(Lines(flights)[k])| - 1] == 't'
  {
    FormatLineEndsInFeet(flights[k]);
  }

  /** The lines as they reach the panel: the final `strip()` takes the leading blanks
      of the first one. */
  function ShownLines(top: seq<StateVector>): (r: seq<string>)
    requires |top| > 0
    requires forall k :: 0 <= k < |top| ==> Showable(top[k])
    ensures |r| == |top|
  {
    [LStrip(Lines(top)[0])] + Lines(top)[1..]
  }

  /** Each shown line ends in the "t" of "ft", the first one included. */
  lemma ShownLineEndsInFeet(top: seq<StateVector>, k: nat)
    requires |top| > 0
    requires forall j :: 0 <= j < |top| ==> Showable(top[j])
    requires k < |top|
    ensures |ShownLines(top)[k]| > 0 && ShownLines(top)[k][|ShownLines(top)[k]| - 1] == 't'
  {
    if k == 0 {
      LineEndsInFeet(top, 0);
    } else {
      LineEndsInFeet(top, k);
    }
  }

  /** The shown lines end in the "t" of "ft", and joined they still do. */
  lemma ShownLinesEndInFeet(top: seq<StateVector>)
    requires |top| > 0
    requires forall k :: 0 <= k < |top| ==> Showable(top[k])
    ensures |Join(ShownLines(top))| > 0
    ensures Join(ShownLines(top))[|Join(ShownLines(top))| - 1] == 't'
  {
    ShownLineEndsInFeet(top, |top| - 1);
    JoinLastChar(ShownLines(top));
  }

  /** The final `strip()` of the accumulated lines only takes the first line's leading
      blanks and the closing newline. */
  lemma StripShownLines(top: seq<StateVector>)
    requires |top| > 0
    requires forall k :: 0 <= k < |top| ==> Showable(top[k])
    ensures Strip(Join(Lines(top)) + "\n") == Join(ShownLines(top))
  {
    LineEndsInFeet(top, 0);
    LineEndsInFeet(top, |top| - 1);
    StripJoinedLines(Lines(top));
  }

  // ---------------------------------------------------------------- whole text

  /** `display_text` before the final `strip()`. */
  function RawText(flightStates: Option<seq<StateVector>>): string
    requires flightStates.Some? ==> AllIndexable(flightStates.value)
  {
    match flightStates
    case None => ApiErrorText
    case Some(states) =>
      if |states| == 0 then ApiErrorText
      else
        var top := TopFlights(states);
        if |top| == 0 then NoFlightsText else Terminated(Lines(top))
  }

  /** The text handed to the panel: `display_text.strip()`. */
  function DisplayText(flightStates: Option<seq<StateVector>>): string
    requires flightStates.Some? ==> AllIndexable(flightStates.value)
  {
    Strip(RawText(flightStates))
  }

  /** The loop of main.py:156-161: one formatted line and a newline per shown flight. */
  method AccumulateText(topFlights: seq<StateVector>) returns (displayText: string)
    requires forall k :: 0 <= k < |topFlights| ==> Showable(topFlights[k])
    ensures displayText == Terminated(Lines(topFlights))
  {
    displayText := "";
    for i := 0 to |topFlights|
      invariant displayText == Terminated(Lines(topFlights)[..i])
    {
      TerminatedPrefix(Lines(topFlights), i);
      displayText := displayText + FormatLine(topFlights[i]) + "\n";
    }
    assert Lines(topFlights)[..|topFlights|] == Lines(topFlights);
  }

  /** The filter, sort and cut, the loop, the fallbacks and the final strip. */
  method BuildDisplayText(flightStates: Option<seq<StateVector>>) returns (text: string)
    requires flightStates.Some? ==> AllIndexable(flightStates.value)
    ensures text == DisplayText(flightStates)
  {
    var displayText := "";
    if flightStates.Some? && |flightStates.value| > 0 {
      var topFlights := TopFlights(flightStates.value);
      if |topFlights| > 0 {
        displayText := AccumulateText(topFlights);
      } else {
        displayText := NoFlightsText;
      }
    } else {
      displayText := ApiErrorText;
    }
    text := Strip(displayText);
  }

  lemma NonSpaceLine(line: string)
    requires |line| >= 2 && line[|line| - 2..] == "ft"
    ensures !IsSpace(line[|line| - 1])
    ensures |LStrip(line)| > 0 && LStrip(line)[|LStrip(line)| - 1] == 't'
  {
    assert line[|line| - 2..][1] == 't';
    assert line[|line| - 2..][0] == 'f';
    assert !IsSpace(line[|line| - 1]) && !IsSpace(line[|line| - 2]);
  }

  lemma DisplayTextIsStrippedBody(states: seq<StateVector>)
    requires AllIndexable(states)
    requires TopFlights(states) != []
    ensures DisplayText(Some(states)) == Strip(Join(Lines(TopFlights(states))) + "\n")
  {
    var top := TopFlights(states);
    assert |states| > 0;
    assert RawText(Some(states)) == Terminated(Lines(top));
    TerminatedIsJoin(Lines(top));
  }

  /** With flights to show, the panel text is their lines joined by newlines, the first
      one without its leading blanks; the final `strip()` touches nothing else. */
  lemma DisplayTextShape(states: seq<StateVector>)
    requires AllIndexable(states)
    requires TopFlights(states) != []
    ensures var top := TopFlights(states);
            DisplayText(Some(states)) == Join(ShownLines(top))
  {
    DisplayTextIsStrippedBody(states);
    StripShownLines(TopFlights(states));
  }

  /** With flights to show, the panel text ends in the "t" of "ft". */
  lemma DisplayTextEndsInFeet(states: seq<StateVector>)
    requires AllIndexable(states)
    requires TopFlights(states) != []
    ensures |DisplayText(Some(states))| > 0
    ensures DisplayText(Some(states))[|DisplayText(Some(states))| - 1] == 't'
  {
    DisplayTextShape(states);
    ShownLinesEndInFeet(TopFlights(states));
  }

  lemma StripApiError()
    ensures Strip(ApiErrorText) == "API Error"
  {
    var pad, msg := "\n\n      ", "API Error";
    assert ApiErrorText == pad + msg;
    assert !IsSpace(msg[|msg| - 1]);
    assert RStrip(ApiErrorText) == ApiErrorText;
    assert forall i :: 0 <= i < |pad| ==> IsSpace(pad[i]);
    LStripPrefixSpaces(pad, msg);
  }

  lemma StripNoFlights()
    ensures Strip(NoFlightsText) == "No flights in area"
  {
    var pad, msg := "\n\n  ", "No flights in area";
    assert NoFlightsText == pad + msg;
    assert !IsSpace(msg[|msg| - 1]);
    assert RStrip(NoFlightsText) == NoFlightsText;
    assert forall i :: 0 <= i < |pad| ==> IsSpace(pad[i]);
    LStripPrefixSpaces(pad, msg);
  }

  /** The two fallback texts, once stripped. */
  lemma DisplayTextFallbacks(flightStates: Option<seq<StateVector>>)
    requires flightStates.Some? ==> AllIndexable(flightStates.value)
    ensures flightStates.None? || flightStates.value == [] ==> DisplayText(flightStates) == "API Error"
    ensures flightStates.Some? && flightStates.value != [] && TopFlights(flightStates.value) == [] ==>
              DisplayText(flightStates) == "No flights in area"
  {
    StripApiError();
    StripNoFlights();
  }

  /** "API Error" is shown exactly when the fetch failed or returned no vectors at all. */
  lemma ApiErrorShownIff(flightStates: Option<seq<StateVector>>)
    requires flightStates.Some? ==> AllIndexable(flightStates.value)
    ensures DisplayText(flightStates) == "API Error"
            <==> flightStates.None? || flightStates.value == []
  {
    DisplayTextFallbacks(flightStates);
    if flightStates.Some? && flightStates.value != [] && TopFlights(flightStates.value) != [] {
      DisplayTextEndsInFeet(flightStates.value);
    }
  }

  /** "No flights in area" is shown exactly when vectors came back but none has both a
      callsign and a non-zero altitude. */
  lemma NoFlightsShownIff(flightStates: Option<seq<StateVector>>)
    requires flightStates.Some? ==> AllIndexable(flightStates.value)
    ensures DisplayText(flightStates) == "No flights in area"
            <==> flightStates.Some? && flightStates.value != [] && Showables(flightStates.value) == []
  {
    DisplayTextFallbacks(flightStates);
    if flightStates.Some? && flightStates.value != [] {
      TopFlightsPrefix(flightStates.value);
      if TopFlights(flightStates.value) != [] {
        DisplayTextEndsInFeet(flightStates.value);
      }
    }
  }

  /** Line `k` of the list holds no newline when the shown part of its callsign holds none. */
  lemma LineSingle(flights: seq<StateVector>, k: nat)
    requires forall j :: 0 <= j < |flights| ==> Showable(flights[j])
    requires k < |flights| && SingleLineCallsign(flights[k])
    ensures '\n' !in Lines(flights)[k]
  {
    FormatLineSingle(flights[k]);
  }

  /** A shown line holds no newline when no callsign among the nine shown does. */
  lemma ShownLineSingle(states: seq<StateVector>, k: nat)
    requires AllIndexable(states)
    requires ShownSingleLine(states)
    requires 0 <= k < |TopFlights(states)|
    ensures '\n' !in ShownLines(TopFlights(states))[k]
  {
    ShownLineNoNewline(TopFlights(states), k);
  }

  lemma ShownLineNoNewline(top: seq<StateVector>, k: nat)
    requires |top| > 0
    requires forall j :: 0 <= j < |top| ==> Showable(top[j])
    requires k < |top| && SingleLineCallsign(top[k])
    ensures '\n' !in ShownLines(top)[k]
  {
    LineSingle(top, k);
    FirstStrippedKeepsOut(Lines(top), k, '\n');
  }

  /** Left-stripping the first of some lines adds no character to any of them. */
  lemma FirstStrippedKeepsOut(lines: seq<string>, k: nat, c: char)
    requires k < |lines| && c !in lines[k]
    ensures c !in ([LStrip(lines[0])] + lines[1..])[k]
  {
    if k == 0 {
      LStripKeepsOut(lines[0], c);
    } else {
      assert ([LStrip(lines[0])] + lines[1..])[k] == lines[k];
    }
  }

  /** One panel line per shown flight, in ranking order; only the first may lose its
      leading blanks. */
  lemma DisplayLines(states: seq<StateVector>)
    requires AllIndexable(states)
    requires ShownSingleLine(states)
    requires TopFlights(states) != []
    ensures var top := TopFlights(states);
            Split(DisplayText(Some(states))) == ShownLines(top)
  {
    var top := TopFlights(states);
    var shown := ShownLines(top);
    DisplayTextShape(states);
    forall k | 0 <= k < |shown| ensures '\n' !in shown[k] {
      ShownLineSingle(states, k);
    }
    SplitJoin(shown);
  }

  /** Either fallback text is a single panel line. */
  lemma FallbackIsOneLine(flightStates: Option<seq<StateVector>>)
    requires flightStates.Some? ==> AllIndexable(flightStates.value)
    requires flightStates.None? || TopFlights(flightStates.value) == []
    ensures |Split(DisplayText(flightStates))| == 1
  {
    var text := DisplayText(flightStates);
    DisplayTextFallbacks(flightStates);
    FallbackTextsAreOneLine();
  }

  lemma FallbackTextsAreOneLine()
    ensures Split("API Error") == ["API Error"]
    ensures Split("No flights in area") == ["No flights in area"]
  {
    FallbackTextsHaveNoNewline();
    SplitNoNewline("API Error");
    SplitNoNewline("No flights in area");
  }

  lemma FallbackTextsHaveNoNewline()
    ensures '\n' !in "API Error"
    ensures '\n' !in "No flights in area"
  {
    var api, none := "API Error", "No flights in area";
    assert forall i :: 0 <= i < |api| ==> api[i] != '\n';
    assert forall i :: 0 <= i < |none| ==> none[i] != '\n';
  }

  /** The panel never gets more than nine lines, and gets exactly one per shown flight. */
  lemma DisplayLineCount(flightStates: Option<seq<StateVector>>)
    requires flightStates.Some? ==> AllIndexable(flightStates.value)
    requires flightStates.Some? ==> ShownSingleLine(flightStates.value)
    ensures 1 <= |Split(DisplayText(flightStates))| <= MaxShown
    ensures flightStates.Some? && TopFlights(flightStates.value) != [] ==>
              |Split(DisplayText(flightStates))| == |TopFlights(flightStates.value)|
  {
    if flightStates.Some? && TopFlights(flightStates.value) != [] {
      DisplayLines(flightStates.value);
    } else {
      FallbackIsOneLine(flightStates);
    }
  }
}
