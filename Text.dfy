/**
 * The four pieces of Python string handling the scanner relies on:
 * `s.split(".")`, `".".join(...)` (spelled out as an f-string in the source),
 * `int(part)` on a decimal octet and `str(n)` / f-string formatting of a
 * non-negative integer.  `int()` is modelled only on plain ASCII digit strings.
 */
module Text {

  const Dot: char := '.'

  /** Python's `s.split(".")`: the pieces between dots, empty pieces kept. */
  function Split(s: string): (parts: seq<string>)
    ensures |parts| >= 1
    ensures forall i | 0 <= i < |parts| :: Dot !in parts[i]
    decreases |s|
  {
    if s == [] then [""]
    else
      var rest := Split(s[1..]);
      if s[0] == Dot then [""] + rest
      else [[s[0]] + rest[0]] + rest[1..]
  }

  /** `".".join(parts)`. */
  function Join(parts: seq<string>): string
    requires |parts| >= 1
  {
    if |parts| == 1 then parts[0] else parts[0] + [Dot] + Join(parts[1..])
  }

  predicate IsDigit(c: char) {
    '0' <= c <= '9'
  }

  predicate AllDigits(s: string) {
    forall i | 0 <= i < |s| :: IsDigit(s[i])
  }

  /** A string Python's `int()` accepts in this model: one or more ASCII digits. */
  predicate IsDecimal(s: string) {
    |s| >= 1 && AllDigits(s)
  }

  /** The form `str(n)` produces: digits, with no leading zero unless the number is 0. */
  predicate IsCanonicalDecimal(s: string) {
    IsDecimal(s) && (s[0] == '0' ==> |s| == 1)
  }

  function DigitValue(c: char): (d: nat)
    requires IsDigit(c)
    ensures d < 10
  {
    c as int - '0' as int
  }

  function DigitChar(d: nat): (c: char)
    requires d < 10
    ensures IsDigit(c) && DigitValue(c) == d
  {
    ('0' as int + d) as char
  }

  /** `int(s)` for a string of decimal digits. */
  function DecimalValue(s: string): nat
    requires AllDigits(s)
    decreases |s|
  {
    if s == [] then 0
    else DecimalValue(s[..|s| - 1]) * 10 + DigitValue(s[|s| - 1])
  }

  /** `str(v)` for a non-negative integer. */
  function FormatDecimal(v: nat): (s: string)
    ensures IsCanonicalDecimal(s)
    ensures Dot !in s
  {
    if v < 10 then [DigitChar(v)]
    else FormatDecimal(v / 10) + [DigitChar(v % 10)]
  }

  /** Parsing what `str` printed gives the number back. */
  lemma {:induction false} DecimalValueOfFormat(v: nat)
    ensures DecimalValue(FormatDecimal(v)) == v
  {
    if v >= 10 {
      var s := FormatDecimal(v);
      assert s[..|s| - 1] == FormatDecimal(v / 10);
      DecimalValueOfFormat(v / 10);
    }
  }

  lemma {:induction false} LeadingDigitPositive(s: string)
    requires IsDecimal(s) && s[0] != '0'
    ensures DecimalValue(s) >= 1
    decreases |s|
  {
    if |s| > 1 {
      LeadingDigitPositive(s[..|s| - 1]);
    }
  }

  /** Printing what was parsed gives the text back, when the text has no leading zero. */
  lemma {:induction false} FormatOfDecimalValue(s: string)
    requires IsCanonicalDecimal(s)
    ensures FormatDecimal(DecimalValue(s)) == s
    decreases |s|
  {
    var v := DecimalValue(s);
    if |s| > 1 {
      var p := s[..|s| - 1];
      LeadingDigitPositive(p);
      assert v / 10 == DecimalValue(p) && v % 10 == DigitValue(s[|s| - 1]);
      FormatOfDecimalValue(p);
      assert DigitChar(DigitValue(s[|s| - 1])) == s[|s| - 1];
      assert s == p + [s[|s| - 1]];
    } else {
      assert DigitChar(DigitValue(s[0])) == s[0];
    }
  }

  lemma {:induction false} SplitNoDot(p: string)
    requires Dot !in p
    ensures Split(p) == [p]
    decreases |p|
  {
    if p != [] {
      assert p[0] in p;
      assert forall c | c in p[1..] :: c in p;
      SplitNoDot(p[1..]);
      assert [p[0]] + p[1..] == p;
    }
  }

  lemma {:induction false} SplitAfterPiece(p: string, t: string)
    requires Dot !in p
    ensures Split(p + [Dot] + t) == [p] + Split(t)
    decreases |p|
  {
    if p == [] {
      assert p + [Dot] + t == [Dot] + t;
      assert ([Dot] + t)[1..] == t;
    } else {
      var s := p + [Dot] + t;
      assert p[0] in p;
      assert forall c | c in p[1..] :: c in p;
      assert s[1..] == p[1..] + [Dot] + t;
      SplitAfterPiece(p[1..], t);
      assert [p[0]] + p[1..] == p;
    }
  }

  /** Splitting a join of dot-free pieces gives the pieces back. */
  lemma {:induction false} SplitOfJoin(parts: seq<string>)
    requires |parts| >= 1
    requires forall i | 0 <= i < |parts| :: Dot !in parts[i]
    ensures Split(Join(parts)) == parts
    decreases |parts|
  {
    if |parts| == 1 {
      SplitNoDot(parts[0]);
    } else {
      SplitOfJoin(parts[1..]);
      SplitAfterPiece(parts[0], Join(parts[1..]));
      assert [parts[0]] + parts[1..] == parts;
    }
  }

  /** Joining the pieces of a split gives the text back. */
  lemma {:induction false} JoinOfSplit(s: string)
    ensures Join(Split(s)) == s
    decreases |s|
  {
    if s != [] {
      var rest := Split(s[1..]);
      JoinOfSplit(s[1..]);
      if s[0] == Dot {
        assert ([""] + rest)[1..] == rest;
        assert [Dot] + s[1..] == s;
      } else {
        var parts := [[s[0]] + rest[0]] + rest[1..];
        if |rest| == 1 {
          assert [s[0]] + s[1..] == s;
        } else {
          assert parts[1..] == rest[1..];
          assert Join(rest) == rest[0] + [Dot] + Join(rest[1..]);
          assert [s[0]] + s[1..] == s;
        }
      }
    }
  }
}
