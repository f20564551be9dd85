/** Text helpers the ledger needs: ASCII lower-casing for category
    comparison, decimal and date text, splitting text into lines, and the
    `--` prefix of command-line flags. */
module Text {
  import opened Values

  // ---------------------------------------------------------------------
  // Lower-casing

  function LowerChar(c: char): char
  {
    if 'A' <= c <= 'Z' then (c as int + 32) as char else c
  }

  /** `toLowerCase`, for the ASCII letters. */
  function Lower(s: string): (r: string)
    ensures |r| == |s|
    ensures forall i :: 0 <= i < |s| ==> r[i] == LowerChar(s[i])
  {
    seq(|s|, i requires 0 <= i < |s| => LowerChar(s[i]))
  }

  /** Case-insensitive equality, the comparison `listExpenses` uses. */
  predicate SameIgnoringCase(a: string, b: string)
  {
    Lower(a) == Lower(b)
  }

  // ---------------------------------------------------------------------
  // Decimal text

  function Digit(d: nat): char
    requires d < 10
  {
    ('0' as int + d) as char
  }

  predicate IsDigit(c: char)
  {
    '0' <= c <= '9'
  }

  function DigitValue(c: char): nat
    requires IsDigit(c)
  {
    c as int - '0' as int
  }

  function Pow10(w: nat): (p: nat)
    ensures p >= 1
  {
    if w == 0 then 1 else 10 * Pow10(w - 1)
  }

  /** The decimal text of `n` without leading zeros, as `${n}` prints it. */
  function NatText(n: nat): (r: string)
    ensures |r| >= 1
    ensures forall i :: 0 <= i < |r| ==> IsDigit(r[i])
    ensures n > 0 ==> r[0] != '0'
  {
    if n < 10 then [Digit(n)] else NatText(n / 10) + [Digit(n % 10)]
  }

  /** The last `w` decimal digits of `n`, zero-padded on the left. */
  function Fixed(n: nat, w: nat): (r: string)
    ensures |r| == w
    ensures forall i :: 0 <= i < |r| ==> IsDigit(r[i])
  {
    if w == 0 then [] else Fixed(n / 10, w - 1) + [Digit(n % 10)]
  }

  /** The number a string of decimal digits denotes. */
  function DigitsValue(s: string): nat
    requires forall i :: 0 <= i < |s| ==> IsDigit(s[i])
  {
    if s == [] then 0 else 10 * DigitsValue(s[..|s| - 1]) + DigitValue(s[|s| - 1])
  }

  lemma {:induction false} FixedRoundTrip(n: nat, w: nat)
    requires n < Pow10(w)
    ensures DigitsValue(Fixed(n, w)) == n
  {
    if w > 0 {
      var f := Fixed(n, w);
      assert f[..w - 1] == Fixed(n / 10, w - 1);
      assert n / 10 < Pow10(w - 1);
      FixedRoundTrip(n / 10, w - 1);
    }
  }

  lemma {:induction false} NatTextRoundTrip(n: nat)
    ensures DigitsValue(NatText(n)) == n
  {
    if n >= 10 {
      var t := NatText(n);
      assert t[..|t| - 1] == NatText(n / 10);
      NatTextRoundTrip(n / 10);
    }
  }

  // ---------------------------------------------------------------------
  // Dates

  /** The `YYYY-MM-DD` text of a date, as `toISOString().split('T')[0]` gives it. */
  function DateText(d: Date): (r: string)
    ensures |r| == 10 && r[4] == '-' && r[7] == '-'
  {
    Fixed(d.year, 4) + "-" + Fixed(d.month, 2) + "-" + Fixed(d.day, 2)
  }

  predicate AllDigits(s: string)
  {
    forall i :: 0 <= i < |s| ==> IsDigit(s[i])
  }

  /** Reading a stored date back, as `new Date(e.date)` does before the
      month and year are taken from it. */
  function ParseDate(t: string): Option<Date>
  {
    if |t| == 10 && t[4] == '-' && t[7] == '-'
       && AllDigits(t[..4]) && AllDigits(t[5..7]) && AllDigits(t[8..])
    then Some(Date(DigitsValue(t[..4]), DigitsValue(t[5..7]), DigitsValue(t[8..])))
    else None
  }

  /** A date survives being written as text and read back, so the model may
      keep dates as triples where the source keeps their text. */
  lemma DateRoundTrip(d: Date)
    requires d.year < 10000 && d.month < 100 && d.day < 100
    ensures ParseDate(DateText(d)) == Some(d)
  {
    var t := DateText(d);
    assert t[..4] == Fixed(d.year, 4);
    assert t[5..7] == Fixed(d.month, 2);
    assert t[8..] == Fixed(d.day, 2);
    FixedRoundTrip(d.year, 4);
    FixedRoundTrip(d.month, 2);
    FixedRoundTrip(d.day, 2);
  }

  // ---------------------------------------------------------------------
  // Lines

  /** The index of the first newline in `s`, or `|s|` when there is none. */
  function LineEnd(s: string): (k: nat)
    ensures k <= |s|
    ensures k < |s| ==> s[k] == '\n'
    ensures forall j :: 0 <= j < k ==> s[j] != '\n'
  {
    if s == [] || s[0] == '\n' then 0 else 1 + LineEnd(s[1..])
  }

  /** The lines of a text: each newline ends a line, and a last fragment
      without a newline is a line of its own. */
  function Lines(s: string): seq<string>
    decreases |s|
  {
    if s == [] then []
    else
      var k := LineEnd(s);
      if k == |s| then [s] else [s[..k]] + Lines(s[k + 1..])
  }

  lemma LinesOfLine(a: string, b: string)
    requires '\n' !in a
    ensures Lines(a + "\n" + b) == [a] + Lines(b)
  {
    var s := a + "\n" + b;
    var k := LineEnd(s);
    assert s[|a|] == '\n';
    assert k == |a|;
    assert s[..k] == a;
    assert s[k + 1..] == b;
  }

  /** The lines, each followed by a newline, one after the other. */
  function Joined(lines: seq<string>): string
  {
    if lines == [] then "" else lines[0] + "\n" + Joined(lines[1..])
  }

  /** One more line appends exactly that line and its newline. */
  lemma {:induction false} JoinedAppend(lines: seq<string>, x: string)
    ensures Joined(lines + [x]) == Joined(lines) + x + "\n"
  {
    if lines != [] {
      assert (lines + [x])[0] == lines[0] && (lines + [x])[1..] == lines[1..] + [x];
      JoinedAppend(lines[1..], x);
    }
  }

  /** Joining lines without newlines and splitting the text again gives the
      same lines back. */
  lemma {:induction false} JoinedLines(lines: seq<string>)
    requires forall i :: 0 <= i < |lines| ==> '\n' !in lines[i]
    ensures Lines(Joined(lines)) == lines
  {
    if lines != [] {
      JoinedLines(lines[1..]);
      LinesOfLine(lines[0], Joined(lines[1..]));
    }
  }

  // ---------------------------------------------------------------------
  // Flags

  predicate StartsWith(s: string, prefix: string)
  {
    |prefix| <= |s| && s[..|prefix|] == prefix
  }

  /** `s.replace('--', '')`: the first occurrence of `--` removed. */
  function StripDashes(s: string): (r: string)
    ensures StartsWith(s, "--") ==> r == s[2..]
    ensures |r| == |s| || |r| == |s| - 2
  {
    if |s| < 2 then s
    else if s[0] == '-' && s[1] == '-' then s[2..]
    else [s[0]] + StripDashes(s[1..])
  }

  /** `--` occurs at position `k` of `s`. */
  predicate DashesAt(s: string, k: nat)
  {
    k + 1 < |s| && s[k] == '-' && s[k + 1] == '-'
  }

  /** A word without `--` is left as it is. */
  lemma {:induction false} StripDashesNone(s: string)
    requires forall j :: 0 <= j < |s| ==> !DashesAt(s, j)
    ensures StripDashes(s) == s
  {
    if |s| >= 2 {
      assert !DashesAt(s, 0);
      forall j | 0 <= j < |s[1..]| ensures !DashesAt(s[1..], j) {
        assert !DashesAt(s, j + 1);
      }
      StripDashesNone(s[1..]);
    }
  }

  /** Only the first `--` is removed; the text around it is kept. */
  lemma {:induction false} StripDashesFirst(s: string, k: nat)
    requires DashesAt(s, k)
    requires forall j :: 0 <= j < k ==> !DashesAt(s, j)
    ensures StripDashes(s) == s[..k] + s[k + 2..]
  {
    if k == 0 {
      assert s[..k] + s[k + 2..] == s[2..];
    } else {
      assert !DashesAt(s, 0);
      var t := s[1..];
      assert DashesAt(t, k - 1);
      forall j | 0 <= j < k - 1 ensures !DashesAt(t, j) {
        assert !DashesAt(s, j + 1);
      }
      StripDashesFirst(t, k - 1);
      assert StripDashes(s) == [s[0]] + StripDashes(t);
      assert s[..k] == [s[0]] + t[..k - 1];
      assert s[k + 2..] == t[k + 1..];
    }
  }
}
