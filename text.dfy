/** The small pieces of Python text handling the message relies on: `str()` of an integer,
    `int(h, 16)` of a lowercase hexadecimal string, and `"\n".join(lines)`. */
module Text {

  predicate IsDigit(c: char) {
    '0' <= c <= '9'
  }

  predicate IsHexDigit(c: char) {
    '0' <= c <= '9' || 'a' <= c <= 'f'
  }

  predicate AllHex(s: string) {
    forall i :: 0 <= i < |s| ==> IsHexDigit(s[i])
  }

  function Pow16(n: nat): (p: nat)
    ensures p >= 1
  {
    if n == 0 then 1 else 16 * Pow16(n - 1)
  }

  // ----- decimal -----

  function DigitChar(d: nat): (c: char)
    requires d < 10
    ensures IsDigit(c)
  {
    ('0' as int + d) as char
  }

  function DigitValue(c: char): (d: nat)
    requires IsDigit(c)
    ensures d < 10 && DigitChar(d) == c
  {
    c as int - '0' as int
  }

  /** `str(n)` for a non-negative integer: its decimal digits, no leading zero. */
  function NatText(n: nat): (s: string)
    ensures |s| >= 1 && forall i :: 0 <= i < |s| ==> IsDigit(s[i])
    ensures s[0] == '0' ==> n == 0 && s == "0"
    decreases n
  {
    if n < 10 then [DigitChar(n)] else NatText(n / 10) + [DigitChar(n % 10)]
  }

  /** `str(n)` for any integer: a minus sign before the digits of a negative number. */
  function IntText(n: int): (s: string)
    ensures |s| >= 1
    ensures n < 0 <==> s[0] == '-'
  {
    if n < 0 then "-" + NatText(-n) else NatText(n)
  }

  /** The number a string of decimal digits denotes. */
  function DecimalValue(s: string): nat
    requires forall i :: 0 <= i < |s| ==> IsDigit(s[i])
    decreases |s|
  {
    if s == [] then 0 else DecimalValue(s[..|s| - 1]) * 10 + DigitValue(s[|s| - 1])
  }

  /** The number `IntText` renders, read back. */
  function IntValue(s: string): (v: int)
    requires |s| >= 1
    requires s[0] == '-' ==> forall i :: 1 <= i < |s| ==> IsDigit(s[i])
    requires s[0] != '-' ==> forall i :: 0 <= i < |s| ==> IsDigit(s[i])
  {
    if s[0] == '-' then 0 - DecimalValue(s[1..]) else DecimalValue(s)
  }

  lemma {:induction false} NatTextRoundTrip(n: nat)
    ensures DecimalValue(NatText(n)) == n
    decreases n
  {
    if n >= 10 {
      NatTextRoundTrip(n / 10);
      var s := NatText(n);
      assert s[..|s| - 1] == NatText(n / 10);
    }
  }

  /** Rendering the online count loses nothing: the count can be read back from its text. */
  lemma IntTextRoundTrip(n: int)
    ensures IntValue(IntText(n)) == n
  {
    if n < 0 {
      NatTextRoundTrip(-n);
      assert IntText(n)[1..] == NatText(-n);
    } else {
      NatTextRoundTrip(n);
    }
  }

  // ----- hexadecimal -----

  function HexDigitValue(c: char): (v: nat)
    requires IsHexDigit(c)
    ensures v < 16
  {
    if c <= '9' then c as int - '0' as int else c as int - 'a' as int + 10
  }

  function HexDigitChar(v: nat): (c: char)
    requires v < 16
    ensures IsHexDigit(c) && HexDigitValue(c) == v
  {
    if v < 10 then ('0' as int + v) as char else ('a' as int + v - 10) as char
  }

  /** `int(s, 16)` for a string of lowercase hexadecimal digits. Python rejects the empty
      string, which gives 0 here; the colour only ever parses six digits. */
  function HexValue(s: string): (v: nat)
    requires AllHex(s)
    ensures v < Pow16(|s|)
    decreases |s|
  {
    if s == [] then 0
    else
      var high := HexValue(s[..|s| - 1]);
      var low := HexDigitValue(s[|s| - 1]);
      assert high * 16 + low < Pow16(|s|) by {
        assert high <= Pow16(|s| - 1) - 1;
        assert high * 16 <= Pow16(|s|) - 16;
      }
      high * 16 + low
  }

  /** The `width` lowest hexadecimal digits of `v`, zero-padded. */
  function HexText(v: nat, width: nat): (s: string)
    ensures |s| == width && AllHex(s)
    decreases width
  {
    if width == 0 then [] else HexText(v / 16, width - 1) + [HexDigitChar(v % 16)]
  }

  /** Parsing a hexadecimal string and printing it back at the same width gives it back:
      the parsed value is determined by, and determines, the digits. */
  lemma {:induction false} HexRoundTrip(s: string)
    requires AllHex(s)
    ensures HexText(HexValue(s), |s|) == s
    decreases |s|
  {
    if s != [] {
      var init, last := s[..|s| - 1], s[|s| - 1];
      HexRoundTrip(init);
      var high, low := HexValue(init), HexDigitValue(last);
      assert (high * 16 + low) / 16 == high;
      assert (high * 16 + low) % 16 == low;
      assert s == init + [last];
    }
  }

  // ----- lines -----

  /** The total number of characters of `lines`, line breaks not counted. */
  function TotalLength(lines: seq<string>): nat
    decreases |lines|
  {
    if |lines| == 0 then 0 else |lines[0]| + TotalLength(lines[1..])
  }

  /** `"\n".join(lines)`: the lines one after the other, with one line break between each
      two of them and none after the last. */
  function JoinLines(lines: seq<string>): (text: string)
    ensures |lines| == 0 ==> text == ""
    ensures |lines| > 0 ==> |text| == TotalLength(lines) + |lines| - 1
    ensures |lines| > 0 ==> text[..|lines[0]|] == lines[0]
    decreases |lines|
  {
    if |lines| == 0 then ""
    else if |lines| == 1 then lines[0]
    else lines[0] + "\n" + JoinLines(lines[1..])
  }

  function IndexOf(s: string, c: char): (i: nat)
    requires c in s
    ensures i < |s| && s[i] == c && c !in s[..i]
  {
    if s[0] == c then 0
    else
      var i := 1 + IndexOf(s[1..], c);
      assert s[..i] == [s[0]] + s[1..][..i - 1];
      i
  }

  /** `s.split("\n")` */
  function SplitLines(s: string): (lines: seq<string>)
    ensures |lines| >= 1
    decreases |s|
  {
    if '\n' !in s then [s]
    else
      var i := IndexOf(s, '\n');
      [s[..i]] + SplitLines(s[i + 1..])
  }

  /** Joining message-of-the-day lines that hold no line break loses nothing: splitting the
      text at the line breaks gives the lines back. */
  lemma {:induction false} SplitJoinLines(lines: seq<string>)
    requires |lines| >= 1
    requires forall k :: 0 <= k < |lines| ==> '\n' !in lines[k]
    ensures SplitLines(JoinLines(lines)) == lines
    decreases |lines|
  {
    if |lines| > 1 {
      var first, rest := lines[0], JoinLines(lines[1..]);
      var s := first + "\n" + rest;
      assert s == JoinLines(lines);
      assert s[|first|] == '\n';
      var i := IndexOf(s, '\n');
      assert s[..i] == first;
      assert s[i + 1..] == rest;
      SplitJoinLines(lines[1..]);
      assert lines == [first] + lines[1..];
    }
  }
}
