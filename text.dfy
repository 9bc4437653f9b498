/**
 * The string operations the card creator uses, written out: joining with a
 * separator (`sep.join(parts)`) and the decimal rendering and parsing of menu
 * numbers (`str(i)` and `int(s)`). Splitting on one character (`s.split(c)`)
 * is not used by the card creator; it is here as the inverse of `Join`, so
 * that round-trip lemmas can state what a joined text keeps.
 */
module Text {

  /** `sep.join(parts)`: the parts in order, with `sep` between neighbours. */
  function Join(parts: seq<string>, sep: string): string
  {
    if |parts| == 0 then ""
    else if |parts| == 1 then parts[0]
    else parts[0] + sep + Join(parts[1..], sep)
  }

  /** `s.split(c)`: the maximal runs of `s` between occurrences of `c`. */
  function SplitOn(s: string, c: char): (pieces: seq<string>)
    ensures |pieces| >= 1
    ensures forall k :: 0 <= k < |pieces| ==> c !in pieces[k]
    decreases |s|
  {
    if |s| == 0 then [""]
    else
      var rest := SplitOn(s[1..], c);
      if s[0] == c then [""] + rest
      else [[s[0]] + rest[0]] + rest[1..]
  }

  /** A piece free of the separator glues onto the first piece of what follows it. */
  lemma {:induction false} SplitAfterFreePrefix(x: string, y: string, c: char)
    requires c !in x
    ensures SplitOn(x + y, c) == [x + SplitOn(y, c)[0]] + SplitOn(y, c)[1..]
    decreases |x|
  {
    if |x| == 0 {
      var pieces := SplitOn(y, c);
      assert x + y == y && x + pieces[0] == pieces[0];
      assert [pieces[0]] + pieces[1..] == pieces;
    } else {
      assert (x + y)[0] == x[0];
      assert (x + y)[1..] == x[1..] + y;
      SplitAfterFreePrefix(x[1..], y, c);
      assert [x[0]] + (x[1..] + SplitOn(y, c)[0]) == x + SplitOn(y, c)[0];
    }
  }

  /** Splitting a join on its one-character separator gives the parts back. */
  lemma {:induction false} SplitJoin(parts: seq<string>, c: char)
    requires |parts| > 0
    requires forall k :: 0 <= k < |parts| ==> c !in parts[k]
    ensures SplitOn(Join(parts, [c]), c) == parts
    decreases |parts|
  {
    if |parts| == 1 {
      SplitAfterFreePrefix(parts[0], "", c);
      assert parts[0] + "" == parts[0];
    } else {
      var tail := Join(parts[1..], [c]);
      SplitJoin(parts[1..], c);
      assert Join(parts, [c]) == parts[0] + ([c] + tail);
      SplitAfterFreePrefix(parts[0], [c] + tail, c);
      assert ([c] + tail)[1..] == tail;
      assert SplitOn([c] + tail, c) == [""] + parts[1..];
      assert parts[0] + "" == parts[0];
      assert [parts[0]] + parts[1..] == parts;
    }
  }

  predicate IsDigit(ch: char)
  {
    '0' <= ch <= '9'
  }

  predicate IsDecimal(s: string)
  {
    forall k :: 0 <= k < |s| ==> IsDigit(s[k])
  }

  function DigitChar(d: nat): (ch: char)
    requires d < 10
    ensures IsDigit(ch)
  {
    ('0' as int + d) as char
  }

  function DigitValue(ch: char): (d: nat)
    requires IsDigit(ch)
    ensures d < 10 && DigitChar(d) == ch
  {
    (ch as int - '0' as int) as nat
  }

  /** `str(n)` for a natural number: its decimal digits, most significant first, no leading zero. */
  function NatToDecimal(n: nat): (s: string)
    ensures |s| > 0 && IsDecimal(s)
    ensures |s| > 1 ==> s[0] != '0'
    decreases n
  {
    if n < 10 then [DigitChar(n)]
    else NatToDecimal(n / 10) + [DigitChar(n % 10)]
  }

  /** `int(s)` for a string of decimal digits. */
  function DecimalToNat(s: string): nat
    requires IsDecimal(s)
    decreases |s|
  {
    if |s| == 0 then 0
    else 10 * DecimalToNat(s[..|s| - 1]) + DigitValue(s[|s| - 1])
  }

  /** `int(str(n)) == n`: the decimal rendering parses back to the number. */
  lemma {:induction false} DecimalRoundTrip(n: nat)
    ensures DecimalToNat(NatToDecimal(n)) == n
    decreases n
  {
    var s := NatToDecimal(n);
    if n < 10 {
      assert s[..|s| - 1] == [];
    } else {
      DecimalRoundTrip(n / 10);
      assert s[..|s| - 1] == NatToDecimal(n / 10);
      assert DigitValue(s[|s| - 1]) == n % 10;
    }
  }

  /** Distinct numbers render to distinct strings. */
  lemma NatToDecimalInjective(m: nat, n: nat)
    requires NatToDecimal(m) == NatToDecimal(n)
    ensures m == n
  {
    DecimalRoundTrip(m);
    DecimalRoundTrip(n);
  }
}
