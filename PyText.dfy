/** The handful of Python `str` and `int` built-ins that the panel text is made of:
    `strip()`, slicing `[:n]`, the `<w` and `>w` format alignments, `split('\n')` and
    `str(n)` for integers, each defined on `seq<char>`. `Join` (`'\n'.join(...)`) and
    `Terminated` are not used by the program; they describe the texts it builds, and
    `split` and `str` come with their inverses. */
module PyText {

  /** Python's `str.isspace()`: the characters `str.strip()` removes when given no argument. */
  predicate IsSpace(c: char) {
    || ('\t' <= c <= '\r')
    || ('\U{1C}' <= c <= ' ')
    || c == '\U{85}' || c == '\U{A0}' || c == '\U{1680}'
    || ('\U{2000}' <= c <= '\U{200A}')
    || c == '\U{2028}' || c == '\U{2029}' || c == '\U{202F}' || c == '\U{205F}' || c == '\U{3000}'
  }

  /** `s.lstrip()`: the longest suffix of `s` that does not start with whitespace. */
  function LStrip(s: string): (r: string)
    ensures |r| <= |s|
    ensures r == [] || !IsSpace(r[0])
  {
    if |s| > 0 && IsSpace(s[0]) then LStrip(s[1..]) else s
  }

  /** What `lstrip()` drops is all whitespace, and what it keeps is the rest of `s`. */
  lemma {:induction false} LStripSpec(s: string)
    ensures LStrip(s) == s[|s| - |LStrip(s)|..]
    ensures forall i :: 0 <= i < |s| - |LStrip(s)| ==> IsSpace(s[i])
  {
    if |s| > 0 && IsSpace(s[0]) {
      var r := LStrip(s);
      LStripSpec(s[1..]);
      assert s[1..][|s| - 1 - |r|..] == s[|s| - |r|..];
      forall i | 0 < i < |s| - |r| ensures IsSpace(s[i]) {
        assert s[i] == s[1..][i - 1];
      }
    }
  }

  /** `s.rstrip()`: the longest prefix of `s` that does not end with whitespace. */
  function RStrip(s: string): (r: string)
    ensures |r| <= |s|
    ensures r == [] || !IsSpace(r[|r| - 1])
  {
    if |s| > 0 && IsSpace(s[|s| - 1]) then RStrip(s[..|s| - 1]) else s
  }

  /** What `rstrip()` drops is all whitespace, and what it keeps is the start of `s`. */
  lemma {:induction false} RStripSpec(s: string)
    ensures RStrip(s) == s[..|RStrip(s)|]
    ensures forall i :: |RStrip(s)| <= i < |s| ==> IsSpace(s[i])
  {
    if |s| > 0 && IsSpace(s[|s| - 1]) {
      var r := RStrip(s);
      RStripSpec(s[..|s| - 1]);
      assert s[..|s| - 1][..|r|] == s[..|r|];
      forall i | |r| <= i < |s| - 1 ensures IsSpace(s[i]) {
        assert s[i] == s[..|s| - 1][i];
      }
    }
  }

  /** `s.strip()`: whitespace removed from both ends. */
  function Strip(s: string): (r: string)
    ensures |r| <= |s|
    ensures r == [] || (!IsSpace(r[0]) && !IsSpace(r[|r| - 1]))
  {
    var t := RStrip(s);
    LStripKeepsLast(t);
    LStrip(t)
  }

  /** Left-stripping never changes the last character of what is left. */
  lemma {:induction false} LStripKeepsLast(s: string)
    ensures LStrip(s) != [] ==> LStrip(s)[|LStrip(s)| - 1] == s[|s| - 1]
  {
    if |s| > 0 && IsSpace(s[0]) {
      LStripKeepsLast(s[1..]);
    }
  }

  /** Left-stripping a text whose first part already holds a non-space character
      only touches that first part. */
  lemma {:induction false} LStripAppend(a: string, b: string)
    requires exists i :: 0 <= i < |a| && !IsSpace(a[i])
    ensures LStrip(a + b) == LStrip(a) + b
  {
    if IsSpace(a[0]) {
      assert (a + b)[1..] == a[1..] + b;
      var i :| 0 <= i < |a| && !IsSpace(a[i]);
      assert i > 0 && !IsSpace(a[1..][i - 1]);
      LStripAppend(a[1..], b);
    }
  }

  /** Right-stripping a text that ends in one trailing whitespace character after
      a non-space one removes exactly that character. */
  lemma RStripOneTrailing(a: string, c: char)
    requires |a| > 0 && !IsSpace(a[|a| - 1]) && IsSpace(c)
    ensures RStrip(a + [c]) == a
  {
    assert (a + [c])[..|a|] == a;
  }

  /** Stripping newline-terminated lines whose first and last lines end in a visible
      character only drops the final newline and the first line's
      leading blanks. */
  lemma StripJoinedLines(lines: seq<string>)
    requires |lines| >= 1
    requires |lines[0]| > 0 && !IsSpace(lines[0][|lines[0]| - 1])
    requires |lines[|lines| - 1]| > 0 && !IsSpace(lines[|lines| - 1][|lines[|lines| - 1]| - 1])
    ensures Strip(Join(lines) + "\n") == Join([LStrip(lines[0])] + lines[1..])
  {
    var first := lines[0];
    assert 0 <= |first| - 1 < |first| && !IsSpace(first[|first| - 1]);
    var joined := Join(lines);
    JoinEndsWithLast(lines);
    assert joined[|joined| - 1] == lines[|lines| - 1][|lines[|lines| - 1]| - 1];
    RStripOneTrailing(joined, '\n');
    var rest := if |lines| == 1 then "" else "\n" + Join(lines[1..]);
    JoinCons(lines);
    LStripAppend(lines[0], rest);
    var shown := [LStrip(lines[0])] + lines[1..];
    assert shown[1..] == lines[1..];
    JoinCons(shown);
  }

  /** `s[:n]`: the first `n` characters, or all of `s` when it is shorter. */
  function Take(s: string, n: nat): (r: string)
    ensures |r| == if |s| <= n then |s| else n
    ensures forall i :: 0 <= i < |r| ==> r[i] == s[i]
  {
    if |s| <= n then s else s[..n]
  }

  /** `" " * n`. */
  function Spaces(n: nat): (r: string)
    ensures |r| == n
    ensures forall i :: 0 <= i < n ==> r[i] == ' '
  {
    if n == 0 then [] else Spaces(n - 1) + [' ']
  }

  /** `f"{s:<w}"`: `s` followed by spaces up to width `w`; never shortens `s`. */
  function LJust(s: string, w: nat): (r: string)
    ensures |r| == if |s| < w then w else |s|
    ensures forall i :: 0 <= i < |s| ==> r[i] == s[i]
    ensures forall i :: |s| <= i < |r| ==> r[i] == ' '
  {
    s + Spaces(if |s| < w then w - |s| else 0)
  }

  /** `f"{s:>w}"`: spaces up to width `w` followed by `s`; never shortens `s`. */
  function RJust(s: string, w: nat): (r: string)
    ensures |r| == if |s| < w then w else |s|
    ensures forall i :: 0 <= i < |s| ==> r[|r| - |s| + i] == s[i]
    ensures forall i :: 0 <= i < |r| - |s| ==> r[i] == ' '
  {
    Spaces(if |s| < w then w - |s| else 0) + s
  }

  /** `s.split('\n')`: the pieces between newline characters; never empty,
      and `""` splits to `[""]`. */
  function Split(s: string): (r: seq<string>)
    ensures |r| >= 1
    ensures forall k :: 0 <= k < |r| ==> '\n' !in r[k]
  {
    if |s| == 0 then [""]
    else if s[0] == '\n' then [""] + Split(s[1..])
    else
      var rest := Split(s[1..]);
      [[s[0]] + rest[0]] + rest[1..]
  }

  /** `'\n'.join(lines)`. */
  function Join(lines: seq<string>): string {
    if |lines| == 0 then ""
    else if |lines| == 1 then lines[0]
    else lines[0] + "\n" + Join(lines[1..])
  }

  /** Every line followed by a newline: what `text += line + "\n"` accumulates. */
  function Terminated(lines: seq<string>): string {
    if |lines| == 0 then ""
    else Terminated(lines[..|lines| - 1]) + lines[|lines| - 1] + "\n"
  }

  /** Newline-terminated lines are the lines joined by newlines, plus one final newline. */
  lemma {:induction false} TerminatedIsJoin(lines: seq<string>)
    requires |lines| >= 1
    ensures Terminated(lines) == Join(lines) + "\n"
  {
    var n := |lines|;
    var init := lines[..n - 1];
    if n > 1 {
      TerminatedIsJoin(init);
      JoinSnoc(init, lines[n - 1]);
      assert init + [lines[n - 1]] == lines;
    } else {
      assert init == [];
    }
  }

  /** One more line appended to a prefix of `lines` adds that line and a newline. */
  lemma TerminatedPrefix(lines: seq<string>, i: nat)
    requires i < |lines|
    ensures Terminated(lines[..i + 1]) == Terminated(lines[..i]) + lines[i] + "\n"
  {
    assert lines[..i + 1][..i] == lines[..i];
  }

  /** A piece without newlines followed by a newline splits off as one line. */
  lemma {:induction false} SplitCons(a: string, b: string)
    requires '\n' !in a
    ensures Split(a + "\n" + b) == [a] + Split(b)
  {
    if |a| == 0 {
      assert a + "\n" + b == "\n" + b;
      assert ("\n" + b)[1..] == b;
    } else {
      assert (a + "\n" + b)[0] == a[0];
      assert (a + "\n" + b)[1..] == a[1..] + "\n" + b;
      SplitCons(a[1..], b);
      assert [a[0]] + a[1..] == a;
    }
  }

  /** Splitting a joined list of newline-free lines gives the lines back. */
  lemma {:induction false} SplitJoin(lines: seq<string>)
    requires |lines| >= 1
    requires forall k :: 0 <= k < |lines| ==> '\n' !in lines[k]
    ensures Split(Join(lines)) == lines
  {
    if |lines| == 1 {
      SplitNoNewline(lines[0]);
    } else {
      SplitCons(lines[0], Join(lines[1..]));
      SplitJoin(lines[1..]);
    }
  }

  /** A text without newlines is one line. */
  lemma {:induction false} SplitNoNewline(s: string)
    requires '\n' !in s
    ensures Split(s) == [s]
  {
    if |s| > 0 {
      assert s[0] in s;
      assert forall c :: c in s[1..] ==> c in s;
      SplitNoNewline(s[1..]);
      assert [s[0]] + s[1..] == s;
    }
  }

  /** Joining the pieces of a split gives the text back. */
  lemma {:induction false} JoinSplit(s: string)
    ensures Join(Split(s)) == s
  {
    if |s| > 0 {
      JoinSplit(s[1..]);
      var rest := Split(s[1..]);
      if s[0] == '\n' {
        assert Join([""] + rest) == "" + "\n" + Join(rest);
        assert "\n" + s[1..] == s;
      } else {
        var r := [[s[0]] + rest[0]] + rest[1..];
        assert r[1..] == rest[1..];
        if |rest| == 1 {
          assert Join(r) == [s[0]] + rest[0];
          assert rest[0] == Join(rest);
        } else {
          assert Join(r) == [s[0]] + rest[0] + "\n" + Join(rest[1..]);
          assert Join(rest) == rest[0] + "\n" + Join(rest[1..]);
        }
        assert [s[0]] + s[1..] == s;
      }
    }
  }

  /** Appending one more line to a non-empty join adds a newline and that line. */
  lemma {:induction false} JoinSnoc(lines: seq<string>, last: string)
    requires |lines| >= 1
    ensures Join(lines + [last]) == Join(lines) + "\n" + last
  {
    if |lines| == 1 {
      assert lines + [last] == [lines[0], last];
    } else {
      assert (lines + [last])[1..] == lines[1..] + [last];
      JoinSnoc(lines[1..], last);
    }
  }

  /** A join is its first line followed, when there are more, by a newline and the rest. */
  lemma JoinCons(lines: seq<string>)
    requires |lines| >= 1
    ensures Join(lines) == lines[0] + (if |lines| == 1 then "" else "\n" + Join(lines[1..]))
  {
  }

  /** The last line of a join is a suffix of the joined text. */
  lemma {:induction false} JoinEndsWithLast(lines: seq<string>)
    requires |lines| >= 1
    ensures |Join(lines)| >= |lines[|lines| - 1]|
    ensures Join(lines)[|Join(lines)| - |lines[|lines| - 1]|..] == lines[|lines| - 1]
  {
    if |lines| > 1 {
      JoinEndsWithLast(lines[1..]);
    }
  }

  /** Padding adds only spaces. */
  lemma LJustKeepsOut(s: string, w: nat, c: char)
    requires c != ' ' && c !in s
    ensures c !in LJust(s, w)
  {
    var r := LJust(s, w);
    forall i | 0 <= i < |r| ensures r[i] != c {
      if i < |s| { assert r[i] == s[i]; }
    }
  }

  lemma RJustKeepsOut(s: string, w: nat, c: char)
    requires c != ' ' && c !in s
    ensures c !in RJust(s, w)
  {
    var r := RJust(s, w);
    forall i | 0 <= i < |r| ensures r[i] != c {
      if i >= |r| - |s| { assert r[i] == s[i - (|r| - |s|)]; }
    }
  }

  /** The joined text ends with the last character of the last line. */
  lemma JoinLastChar(lines: seq<string>)
    requires |lines| >= 1 && |lines[|lines| - 1]| > 0
    ensures |Join(lines)| > 0
    ensures Join(lines)[|Join(lines)| - 1] == lines[|lines| - 1][|lines[|lines| - 1]| - 1]
  {
    var last := lines[|lines| - 1];
    JoinEndsWithLast(lines);
    assert Join(lines)[|Join(lines)| - 1] == Join(lines)[|Join(lines)| - |last|..][|last| - 1];
  }

  /** Left-stripping only removes characters. */
  lemma {:induction false} LStripKeepsOut(s: string, c: char)
    requires c !in s
    ensures c !in LStrip(s)
  {
    if |s| > 0 && IsSpace(s[0]) {
      assert forall i :: 0 <= i < |s[1..]| ==> s[1..][i] == s[i + 1];
      LStripKeepsOut(s[1..], c);
    }
  }

  predicate IsDigit(c: char) { '0' <= c <= '9' }

  function DigitChar(d: nat): (c: char)
    requires d < 10
    ensures IsDigit(c) && (c as int) - ('0' as int) == d
  {
    (('0' as int) + d) as char
  }

  /** `str(n)` for a non-negative integer: its decimal digits, without leading zeros. */
  function NatDigits(n: nat): (r: string)
    ensures |r| >= 1
    ensures forall i :: 0 <= i < |r| ==> IsDigit(r[i])
    ensures r[0] == '0' ==> n == 0 && |r| == 1
  {
    if n < 10 then [DigitChar(n)] else NatDigits(n / 10) + [DigitChar(n % 10)]
  }

  /** `str(n)` for any integer: a minus sign before the digits of a negative one. */
  function DecimalString(n: int): (r: string)
    ensures |r| >= 1
    ensures r[0] == '-' <==> n < 0
    ensures r[0] == '-' || IsDigit(r[0])
    ensures forall i :: 0 < i < |r| ==> IsDigit(r[i])
  {
    if n < 0 then "-" + NatDigits(-n) else NatDigits(n)
  }

  function DigitValue(c: char): (d: nat)
    requires IsDigit(c)
    ensures d < 10 && DigitChar(d) == c
  {
    (c as int) - ('0' as int)
  }

  /** The value of a string of decimal digits, read left to right. */
  function DigitsValue(s: string): nat
    requires forall i :: 0 <= i < |s| ==> IsDigit(s[i])
  {
    if |s| == 0 then 0
    else DigitsValue(s[..|s| - 1]) * 10 + DigitValue(s[|s| - 1])
  }

  /** `int(s)` for an optional minus sign followed by decimal digits. */
  function ParseDecimal(s: string): int
    requires |s| >= 1 && (s[0] == '-' || IsDigit(s[0]))
    requires forall i :: 0 < i < |s| ==> IsDigit(s[i])
  {
    if s[0] == '-' then 0 - DigitsValue(s[1..]) as int else DigitsValue(s)
  }

  lemma {:induction false} NatDigitsValue(n: nat)
    ensures DigitsValue(NatDigits(n)) == n
  {
    if n >= 10 {
      NatDigitsValue(n / 10);
      var r := NatDigits(n);
      assert r[..|r| - 1] == NatDigits(n / 10);
    }
  }

  function Pow10(k: nat): (p: nat)
    ensures p >= 1
  {
    if k == 0 then 1 else 10 * Pow10(k - 1)
  }

  /** `str(n)` of a non-negative integer takes at most `k` characters exactly when
      `n` is below `10^k`. */
  lemma {:induction false} NatDigitsLength(n: nat, k: nat)
    requires k >= 1
    ensures |NatDigits(n)| <= k <==> n < Pow10(k)
  {
    if n >= 10 {
      assert |NatDigits(n)| == |NatDigits(n / 10)| + 1;
      if k == 1 {
        assert Pow10(1) == 10;
      } else {
        NatDigitsLength(n / 10, k - 1);
        assert n / 10 < Pow10(k - 1) <==> n < 10 * Pow10(k - 1);
      }
    } else {
      assert Pow10(k) >= 10 by { assert Pow10(k) == 10 * Pow10(k - 1); }
    }
  }

  /** `len(str(n)) <= 5` exactly when `-9999 <= n <= 99999`. */
  lemma DecimalStringFitsFive(n: int)
    ensures |DecimalString(n)| <= 5 <==> -9999 <= n <= 99999
  {
    assert Pow10(4) == 10000 && Pow10(5) == 100000;
    if n < 0 {
      NatDigitsLength(-n, 4);
    } else {
      NatDigitsLength(n, 5);
    }
  }

  /** `int(str(n)) == n`: the decimal form of an integer reads back as that integer. */
  /** `str(n)` has no leading zeros: "0" is the only text starting with a zero, and
      after a minus sign comes a non-zero digit. */
  lemma DecimalStringCanonical(n: int)
    ensures DecimalString(n)[0] == '0' ==> DecimalString(n) == "0"
    ensures DecimalString(n)[0] == '-' ==> |DecimalString(n)| >= 2 && DecimalString(n)[1] != '0'
  {
    if n < 0 {
      var d := NatDigits(-n);
      assert DecimalString(n) == "-" + d;
      assert DecimalString(n)[1] == d[0];
    } else {
      assert DecimalString(n) == NatDigits(n);
      if DecimalString(n)[0] == '0' {
        assert n == 0;
      }
    }
  }

  lemma DecimalRoundTrip(n: int)
    ensures ParseDecimal(DecimalString(n)) == n
  {
    var r := DecimalString(n);
    if n < 0 {
      assert r[1..] == NatDigits(-n);
      NatDigitsValue(-n);
    } else {
      NatDigitsValue(n);
    }
  }
}
