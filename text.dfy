/**
 * Text helpers behind the log writer and the step messages: Python's
 * `str.rstrip()`, the one-line normalisation `_write_log` applies, and the
 * decimal rendering of integers that an f-string performs.
 */
module Text {

  /** The characters Python's `str.isspace()` accepts, which `str.rstrip()` removes. */
  predicate IsSpace(c: char)
  {
    || c == ' '
    || ('\t' <= c <= '\r')
    || ('\U{1C}' <= c <= '\U{1F}')
    || c == '\U{85}'
    || c == '\U{A0}'
    || c == '\U{1680}'
    || ('\U{2000}' <= c <= '\U{200A}')
    || c == '\U{2028}'
    || c == '\U{2029}'
    || c == '\U{202F}'
    || c == '\U{205F}'
    || c == '\U{3000}'
  }

  /** `s.rstrip()`: the longest prefix of `s` that does not end in whitespace. */
  function RStrip(s: string): (r: string)
    ensures r <= s
    ensures r == [] || !IsSpace(r[|r| - 1])
    ensures forall i :: |r| <= i < |s| ==> IsSpace(s[i])
    decreases |s|
  {
    if |s| == 0 || !IsSpace(s[|s| - 1]) then s else RStrip(s[..|s| - 1])
  }

  /** The text `_write_log` appends to a run's log file for one line. */
  function Normalise(line: string): string
  {
    RStrip(line) + "\n"
  }

  /** A string that already has no trailing whitespace is left alone by `rstrip`. */
  lemma RStripStripped(s: string)
    requires s == [] || !IsSpace(s[|s| - 1])
    ensures RStrip(s) == s
  {
  }

  /** Writing an already written line again writes the same text: normalisation is idempotent. */
  lemma {:induction false} NormaliseIdempotent(line: string)
    ensures Normalise(Normalise(line)) == Normalise(line)
  {
    var r := RStrip(line);
    var n := r + "\n";
    assert n[..|n| - 1] == r;
    RStripStripped(r);
  }

  /** A line without a newline of its own becomes exactly one line: its only newline is the last character. */
  lemma NormaliseOneLine(line: string)
    requires forall i :: 0 <= i < |line| ==> line[i] != '\n'
    ensures var n := Normalise(line);
      && |n| >= 1 && n[|n| - 1] == '\n'
      && forall i :: 0 <= i < |n| - 1 ==> n[i] != '\n'
  {
    var r := RStrip(line);
    assert forall i :: 0 <= i < |r| ==> r[i] == line[i];
  }

  /** Trailing whitespace never changes what is written. */
  lemma {:induction false} NormaliseIgnoresTrailingSpace(line: string, ws: string)
    requires forall i :: 0 <= i < |ws| ==> IsSpace(ws[i])
    ensures Normalise(line + ws) == Normalise(line)
    decreases |ws|
  {
    if ws != [] {
      var s := line + ws;
      assert s[..|s| - 1] == line + ws[..|ws| - 1];
      NormaliseIgnoresTrailingSpace(line, ws[..|ws| - 1]);
    } else {
      assert line + ws == line;
    }
  }

  predicate IsDigit(c: char)
  {
    '0' <= c <= '9'
  }

  function DigitChar(d: nat): (c: char)
    requires d < 10
    ensures IsDigit(c) && c as int - '0' as int == d
  {
    ('0' as int + d) as char
  }

  /** Python's `str(n)` for a natural number: decimal digits, most significant first. */
  function NatToString(n: nat): (s: string)
    ensures |s| >= 1
    ensures forall i :: 0 <= i < |s| ==> IsDigit(s[i])
    ensures s[0] == '0' ==> n == 0
    decreases n
  {
    if n < 10 then [DigitChar(n)] else NatToString(n / 10) + [DigitChar(n % 10)]
  }

  /** Python's `str(i)` for any integer. */
  function IntToString(i: int): (s: string)
    ensures |s| >= 1
    ensures i >= 0 ==> forall k :: 0 <= k < |s| ==> IsDigit(s[k])
    ensures i < 0 ==> s[0] == '-'
  {
    if i < 0 then "-" + NatToString(-i) else NatToString(i)
  }

  /** The number a string of decimal digits denotes, independently of how it was produced. */
  function DigitsValue(s: string): nat
    requires forall i :: 0 <= i < |s| ==> IsDigit(s[i])
    decreases |s|
  {
    if s == [] then 0
    else
      assert IsDigit(s[|s| - 1]);
      DigitsValue(s[..|s| - 1]) * 10 + (s[|s| - 1] as int - '0' as int)
  }

  /** Reading back the decimal text of `n` gives `n`. */
  lemma {:induction false} NatToStringRoundTrip(n: nat)
    ensures DigitsValue(NatToString(n)) == n
    decreases n
  {
    var s := NatToString(n);
    if n >= 10 {
      NatToStringRoundTrip(n / 10);
      assert s[..|s| - 1] == NatToString(n / 10);
    }
  }

  /** Python's `s.startswith(prefix)`. */
  predicate StartsWith(s: string, prefix: string)
  {
    prefix <= s
  }
}
