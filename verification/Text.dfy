/**
 The string operations the configuration code relies on: case folding and stripping of ASCII
 text, decimal numerals, and the ", " separated lists that options are stored as.
 */
module Text {
  import opened Options

  // ---------------------------------------------------------------- case and white space

  function LowerChar(c: char): char {
    if 'A' <= c <= 'Z' then c - 'A' + 'a' else c
  }

  function Lower(s: string): string {
    seq(|s|, i requires 0 <= i < |s| => LowerChar(s[i]))
  }

  /** ASCII white space as str.isspace() and \s see it, with the four separator characters. */
  predicate IsSpace(c: char) {
    c == ' ' || '\t' <= c <= '\r' || '\U{1c}' <= c <= '\U{1f}'
  }

  /** str.strip() */
  function Strip(s: string): string {
    if s != "" && IsSpace(s[0]) then Strip(s[1..])
    else if s != "" && IsSpace(s[|s| - 1]) then Strip(s[..|s| - 1])
    else s
  }

  /** Stripping and case folding commute. */
  lemma {:induction false} StripLower(s: string)
    ensures Strip(Lower(s)) == Lower(Strip(s))
    decreases |s|
  {
    assert forall c :: IsSpace(LowerChar(c)) == IsSpace(c);
    if s != "" && IsSpace(s[0]) {
      assert Lower(s)[1..] == Lower(s[1..]);
      StripLower(s[1..]);
    } else if s != "" && IsSpace(s[|s| - 1]) {
      assert Lower(s)[..|s| - 1] == Lower(s[..|s| - 1]);
      StripLower(s[..|s| - 1]);
    }
  }

  // ---------------------------------------------------------------- numerals

  function DigitChar(d: nat): char
    requires d < 10
  {
    '0' + (d as char)
  }

  function Numeral(n: nat): string {
    if n < 10 then [DigitChar(n)] else Numeral(n / 10) + [DigitChar(n % 10)]
  }

  /** int() on a plain decimal numeral; None where it raises. */
  function ParseNat(s: string): Option<nat> {
    if s == "" then None
    else
      var last := s[|s| - 1];
      if !('0' <= last <= '9') then None
      else
        var d := (last - '0') as nat;
        if |s| == 1 then Some(d)
        else
          var rest := ParseNat(s[..|s| - 1]);
          if rest.None? then None else Some(10 * rest.value + d)
  }

  lemma {:induction false} NumeralRoundTrip(n: nat)
    ensures ParseNat(Numeral(n)) == Some(n)
    ensures forall i :: 0 <= i < |Numeral(n)| ==> '0' <= Numeral(n)[i] <= '9'
  {
    if n >= 10 {
      NumeralRoundTrip(n / 10);
      var s := Numeral(n);
      assert s[..|s| - 1] == Numeral(n / 10);
    }
  }

  /** int() on text: white space around the numeral and a sign are accepted. */
  function ParseInt(s: string): Option<int> {
    var t := Strip(s);
    var signed := t != "" && (t[0] == '-' || t[0] == '+');
    var n := ParseNat(if signed then t[1..] else t);
    if n.None? then None else var v: int := n.value; Some(if signed && t[0] == '-' then -v else v)
  }

  function IntText(n: int): string {
    if n < 0 then "-" + Numeral(-n) else Numeral(n)
  }

  lemma IntRoundTrip(n: int)
    ensures ParseInt(IntText(n)) == Some(n)
    ensures !Contains(IntText(n), DELIMITER)
  {
    var m: nat := if n < 0 then -n else n;
    var digits := Numeral(m);
    NumeralRoundTrip(m);
    SignedText(digits, n < 0);
    var t := IntText(n);
    forall i | 0 <= i <= |t| ensures !StartsWith(t[i..], DELIMITER) {
      if |t[i..]| >= 2 {
        assert t[i..][..2][0] == t[i] != ',';
      }
    }
  }

  lemma NumeralIsInt(n: nat)
    ensures ParseInt(Numeral(n)) == Some(n)
  {
    IntRoundTrip(n);
    assert IntText(n) == Numeral(n);
  }

  lemma SignedText(digits: string, negative: bool)
    requires digits != "" && forall i :: 0 <= i < |digits| ==> '0' <= digits[i] <= '9'
    ensures var t := if negative then "-" + digits else digits;
            && Strip(t) == t && (negative <==> t[0] == '-') && t[0] != '+' && (negative ==> t[1..] == digits)
  {
    var t := if negative then "-" + digits else digits;
    assert t[|t| - 1] == digits[|digits| - 1];
  }

  // ---------------------------------------------------------------- the stored text

  const DELIMITER: string := ", "

  function Join(parts: seq<string>): string {
    if parts == [] then ""
    else if |parts| == 1 then parts[0]
    else parts[0] + DELIMITER + Join(parts[1..])
  }

  predicate StartsWith(s: string, prefix: string) {
    |prefix| <= |s| && s[..|prefix|] == prefix
  }

  predicate Contains(s: string, t: string) {
    exists i :: 0 <= i <= |s| && StartsWith(s[i..], t)
  }

  /** str.split(", "): the parts between non-overlapping delimiters, found from the left. */
  function Split(s: string): seq<string> {
    SplitFrom(s, 0)
  }

  function SplitFrom(s: string, i: nat): seq<string>
    requires i <= |s|
    decreases |s|, |s| - i
  {
    if i == |s| then [s]
    else if StartsWith(s[i..], DELIMITER) then [s[..i]] + SplitFrom(s[i + 2..], 0)
    else SplitFrom(s, i + 1)
  }

  lemma NoDelimiterInside(part: string, rest: string, i: nat)
    requires !Contains(part, DELIMITER) && i < |part|
    ensures !StartsWith((part + DELIMITER + rest)[i..], DELIMITER)
  {
    var s := part + DELIMITER + rest;
    assert s[i..][..2] == [s[i], s[i + 1]];
    assert !StartsWith(part[i..], DELIMITER);
    if i + 1 < |part| {
      assert part[i..][..2] == [part[i], part[i + 1]];
    } else {
      assert s[i + 1] == ',';
    }
  }

  lemma {:induction false} SplitFirst(part: string, rest: string, i: nat)
    requires !Contains(part, DELIMITER) && i <= |part|
    ensures SplitFrom(part + DELIMITER + rest, i) == [part] + SplitFrom(rest, 0)
    decreases |part| - i
  {
    var s := part + DELIMITER + rest;
    if i == |part| {
      assert s[i..] == DELIMITER + rest;
      assert s[..i] == part && s[i + 2..] == rest;
    } else {
      NoDelimiterInside(part, rest, i);
      SplitFirst(part, rest, i + 1);
    }
  }

  lemma {:induction false} SplitLast(part: string, i: nat)
    requires !Contains(part, DELIMITER) && i <= |part|
    ensures SplitFrom(part, i) == [part]
    decreases |part| - i
  {
    if i < |part| {
      assert !StartsWith(part[i..], DELIMITER);
      SplitLast(part, i + 1);
    }
  }

  /** Joining and splitting gives the parts back when no part contains the delimiter. */
  lemma {:induction false} SplitJoin(parts: seq<string>)
    requires parts != [] && forall p :: p in parts ==> !Contains(p, DELIMITER)
    ensures Split(Join(parts)) == parts
  {
    if |parts| == 1 {
      SplitLast(parts[0], 0);
    } else {
      SplitJoin(parts[1..]);
      SplitFirst(parts[0], Join(parts[1..]), 0);
      assert parts[0] + DELIMITER + Join(parts[1..]) == Join(parts);
    }
  }

  /** No numeral contains the delimiter. */
  lemma NoDelimiterInNumeral(n: nat)
    ensures !Contains(Numeral(n), DELIMITER)
  {
    NumeralRoundTrip(n);
    var s := Numeral(n);
    forall i | 0 <= i <= |s| ensures !StartsWith(s[i..], DELIMITER) {
      if |s[i..]| >= 2 {
        assert s[i..][..2][0] == s[i];
      }
    }
  }
}
