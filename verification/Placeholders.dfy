/**
 The SQL placeholder conversion (_convert_positional_to_named): a scanner that rewrites each `?`
 outside a quoted literal to :param_0, :param_1, ...

 The scanner tracks quotes with a flag and looks ahead for the '' escape.  The specification
 needs neither: a `?` is a placeholder when an even number of quotes precedes it.  A reader of
 the converted text then tells exactly when the conversion can be undone.
 */
module Placeholders {
  import opened Options
  import opened Text

  const QUOTE: char := '\''
  const MARK: char := '?'
  const PREFIX: string := ":param_"

  // ---------------------------------------------------------------- the scanner

  function Named(name: string): string {
    PREFIX + name
  }

  /** What the scanner appends for the rest of the query, given its flag and its counter. */
  function Convert(q: string, inString: bool, index: nat): string
    decreases |q|
  {
    if q == "" then ""
    else if q[0] == QUOTE && inString && |q| > 1 && q[1] == QUOTE then [QUOTE, QUOTE] + Convert(q[2..], true, index)
    else if q[0] == QUOTE then [QUOTE] + Convert(q[1..], !inString, index)
    else if q[0] == MARK && !inString then Named(Numeral(index)) + Convert(q[1..], false, index + 1)
    else [q[0]] + Convert(q[1..], inString, index)
  }

  method ConvertPositionalToNamed(query: string) returns (converted: string)
    ensures converted == Convert(query, false, 0)
  {
    converted := "";
    var index, inString, i := 0, false, 0;
    while i < |query|
      invariant 0 <= i <= |query|
      invariant Convert(query, false, 0) == converted + Convert(query[i..], inString, index)
    {
      var c := query[i];
      ghost var rest := query[i..];
      assert rest[1..] == query[i + 1..];
      if c == QUOTE && !inString {
        inString := true;
      } else if c == QUOTE && inString {
        if i + 1 < |query| && query[i + 1] == QUOTE {
          assert rest[2..] == query[i + 2..];
          Append(converted, [QUOTE, QUOTE], Convert(query[i + 2..], true, index));
          converted := converted + [QUOTE, QUOTE];
          i := i + 2;
          continue;
        }
        inString := false;
      } else if c == MARK && !inString {
        Append(converted, Named(Numeral(index)), Convert(query[i + 1..], false, index + 1));
        converted := converted + Named(Numeral(index));
        index := index + 1;
        i := i + 1;
        continue;
      }
      Append(converted, [c], Convert(query[i + 1..], inString, index));
      converted := converted + [c];
      i := i + 1;
    }
  }

  lemma Append(a: string, b: string, c: string)
    ensures a + (b + c) == (a + b) + c
  {
  }

  // ---------------------------------------------------------------- the specification

  /** One character of the query, or the placeholder with this number. */
  datatype Item = Char(c: char) | Param(k: nat)

  function Quotes(s: string): nat {
    if s == "" then 0 else (if s[0] == QUOTE then 1 else 0) + Quotes(s[1..])
  }

  /** The `?` at i is a placeholder, when the query continues a literal (or not) at its start. */
  predicate IsMark(q: string, inString: bool, i: nat)
    requires i < |q|
  {
    q[i] == MARK && (Quotes(q[..i]) + if inString then 1 else 0) % 2 == 0
  }

  function Marks(q: string, inString: bool, n: nat): nat
    requires n <= |q|
  {
    if n == 0 then 0 else Marks(q, inString, n - 1) + if IsMark(q, inString, n - 1) then 1 else 0
  }

  /** The query with its placeholders numbered from index on, and nothing else changed. */
  function Items(q: string, inString: bool, index: nat): (items: seq<Item>)
    ensures |items| == |q|
    ensures forall i :: 0 <= i < |q| ==>
              items[i] == if IsMark(q, inString, i) then Param(index + Marks(q, inString, i)) else Char(q[i])
  {
    seq(|q|, i requires 0 <= i < |q| =>
      if IsMark(q, inString, i) then Param(index + Marks(q, inString, i)) else Char(q[i]))
  }

  function Print(items: seq<Item>): string {
    if items == [] then ""
    else (match items[0] case Char(c) => [c] case Param(k) => Named(Numeral(k))) + Print(items[1..])
  }

  function Toggled(inString: bool, c: char): bool {
    if c == QUOTE then !inString else inString
  }

  lemma MarkStep(q: string, inString: bool, i: nat)
    requires 0 < i < |q|
    ensures IsMark(q, inString, i) == IsMark(q[1..], Toggled(inString, q[0]), i - 1)
  {
    assert q[..i][1..] == q[1..][..i - 1];
  }

  lemma FirstMark(q: string, inString: bool)
    requires q != ""
    ensures IsMark(q, inString, 0) <==> q[0] == MARK && !inString
    ensures Marks(q, inString, 0) == 0
  {
    assert q[..0] == "";
  }

  lemma {:induction false} MarksStep(q: string, inString: bool, n: nat)
    requires 0 < n <= |q|
    ensures Marks(q, inString, n) ==
            Marks(q[1..], Toggled(inString, q[0]), n - 1) + if q[0] == MARK && !inString then 1 else 0
  {
    if n == 1 {
      assert Marks(q, inString, 0) == 0;
      assert q[..0] == "";
    } else {
      MarksStep(q, inString, n - 1);
      MarkStep(q, inString, n - 1);
    }
  }

  lemma ItemStep(q: string, inString: bool, index: nat, i: nat)
    requires 0 < i < |q|
    ensures Items(q, inString, index)[i] ==
            Items(q[1..], Toggled(inString, q[0]), index + if q[0] == MARK && !inString then 1 else 0)[i - 1]
  {
    MarkStep(q, inString, i);
    MarksStep(q, inString, i);
  }

  function FirstItem(c: char, inString: bool, index: nat): Item {
    if c == MARK && !inString then Param(index) else Char(c)
  }

  function Counted(c: char, inString: bool, index: nat): nat {
    if c == MARK && !inString then index + 1 else index
  }

  /** The specification unfolds one character at a time. */
  lemma ItemsStep(q: string, inString: bool, index: nat)
    requires q != ""
    ensures Items(q, inString, index) ==
            [FirstItem(q[0], inString, index)] + Items(q[1..], Toggled(inString, q[0]), Counted(q[0], inString, index))
  {
    var items := Items(q, inString, index);
    var rest := Items(q[1..], Toggled(inString, q[0]), Counted(q[0], inString, index));
    FirstMark(q, inString);
    assert items[0] == FirstItem(q[0], inString, index);
    forall i | 0 < i < |q| ensures items[i] == rest[i - 1] {
      ItemStep(q, inString, index, i);
    }
    PointwiseTail(items, rest);
  }

  lemma PointwiseTail(items: seq<Item>, rest: seq<Item>)
    requires |items| == |rest| + 1 && forall i :: 0 < i < |items| ==> items[i] == rest[i - 1]
    ensures items == [items[0]] + rest
  {
  }

  lemma PrintFirst(first: Item, rest: seq<Item>)
    ensures Print([first] + rest) == (match first case Char(c) => [c] case Param(k) => Named(Numeral(k))) + Print(rest)
  {
    assert ([first] + rest)[1..] == rest;
  }

  /** The look-ahead makes no difference: the second quote of an escape could have been read on its own. */
  lemma ConvertOne(q: string, inString: bool, index: nat)
    requires q != "" && (q[0] == MARK ==> inString)
    ensures Convert(q, inString, index) == [q[0]] + Convert(q[1..], Toggled(inString, q[0]), index)
  {
    if q[0] == QUOTE && inString && |q| > 1 && q[1] == QUOTE {
      assert q[1..][1..] == q[2..];
    }
  }

  /** The scanner, flag, look-ahead and all, prints exactly the specified items. */
  lemma {:induction false} ConvertPrintsItems(q: string, inString: bool, index: nat)
    ensures Convert(q, inString, index) == Print(Items(q, inString, index))
  {
    if q != "" {
      ItemsStep(q, inString, index);
      ConvertPrintsItems(q[1..], Toggled(inString, q[0]), Counted(q[0], inString, index));
      PrintFirst(FirstItem(q[0], inString, index),
        Items(q[1..], Toggled(inString, q[0]), Counted(q[0], inString, index)));
      if q[0] == MARK ==> inString {
        ConvertOne(q, inString, index);
      }
    }
  }

  // ---------------------------------------------------------------- reading the result

  predicate Digit(c: char) {
    '0' <= c <= '9'
  }

  function NameRun(s: string): (run: string)
    ensures run <= s
  {
    if s != "" && Digit(s[0]) then [s[0]] + NameRun(s[1..]) else ""
  }

  predicate AtParameter(s: string) {
    |s| > |PREFIX| && StartsWith(s, PREFIX) && Digit(s[|PREFIX|])
  }

  /** A character of the converted text, or a parameter and the rest of its name. */
  datatype Found = Literal(c: char) | Name(run: string)

  /** Finds the parameters in converted text; a name extends as far as it can. */
  function Scan(s: string): seq<Found>
    decreases |s|
  {
    if s == "" then []
    else if AtParameter(s) then
      var run := NameRun(s[|PREFIX|..]);
      [Name(run)] + Scan(s[|PREFIX| + |run|..])
    else [Literal(s[0])] + Scan(s[1..])
  }

  /** No placeholder runs into a following character, and the query holds no parameter of its own. */
  predicate Clean(q: string, inString: bool) {
    && (forall i :: 0 <= i < |q| && IsMark(q, inString, i) ==> i + 1 == |q| || !Digit(q[i + 1]))
    && (forall i :: 0 <= i < |q| ==> !AtParameter(q[i..]))
  }

  /** Whether the first character is harmless. */
  predicate CleanHere(q: string, inString: bool)
    requires q != ""
  {
    && (q[0] == MARK && !inString ==> |q| == 1 || !Digit(q[1]))
    && !AtParameter(q)
  }

  lemma CleanStep(q: string, inString: bool)
    requires q != ""
    ensures Clean(q, inString) <==>
            CleanHere(q, inString) && Clean(q[1..], Toggled(inString, q[0]))
  {
    var tail, next := q[1..], Toggled(inString, q[0]);
    assert q[0..] == q;
    FirstMark(q, inString);
    if Clean(q, inString) {
      forall i | 0 <= i < |tail| && IsMark(tail, next, i) ensures i + 1 == |tail| || !Digit(tail[i + 1]) {
        MarkStep(q, inString, i + 1);
      }
      forall i | 0 <= i < |tail| ensures !AtParameter(tail[i..]) {
        assert tail[i..] == q[i + 1..];
      }
    }
    if CleanHere(q, inString) && Clean(tail, next) {
      forall i | 0 <= i < |q| && IsMark(q, inString, i) ensures i + 1 == |q| || !Digit(q[i + 1]) {
        if i > 0 {
          MarkStep(q, inString, i);
        }
      }
      forall i | 0 <= i < |q| ensures !AtParameter(q[i..]) {
        if i > 0 {
          assert tail[i - 1..] == q[i..];
        }
      }
    }
  }

  function Shown(items: seq<Item>): (found: seq<Found>)
    ensures |found| == |items|
    ensures forall i :: 0 <= i < |items| ==>
              found[i] == match items[i] case Char(c) => Literal(c) case Param(k) => Name(Numeral(k))
  {
    seq(|items|, i requires 0 <= i < |items| =>
      match items[i] case Char(c) => Literal(c) case Param(k) => Name(Numeral(k)))
  }

  /** Characters the scanner copies whatever its flag. */
  predicate Copied(c: char) {
    c != QUOTE && c != MARK
  }

  lemma ConvertFirst(q: string, inString: bool, index: nat)
    requires q != "" && Copied(q[0])
    ensures Convert(q, inString, index) == [q[0]] + Convert(q[1..], inString, index)
  {
  }

  lemma FirstOfConvert(q: string, inString: bool, index: nat)
    ensures q == "" <==> Convert(q, inString, index) == ""
    ensures q != "" ==> Convert(q, inString, index)[0] == if q[0] == MARK && !inString then ':' else q[0]
  {
  }

  /** The run of digits at the front is copied, and ends where it ended. */
  lemma {:induction false} RunOfConvert(q: string, inString: bool, index: nat)
    ensures var run := NameRun(q);
            && NameRun(Convert(q, inString, index)) == run
            && Convert(q, inString, index)[|run|..] == Convert(q[|run|..], inString, index)
    decreases |q|
  {
    var s := Convert(q, inString, index);
    FirstOfConvert(q, inString, index);
    if q != "" && Digit(q[0]) {
      var tail := Convert(q[1..], inString, index);
      ConvertFirst(q, inString, index);
      RunOfConvert(q[1..], inString, index);
      var run := NameRun(q[1..]);
      assert s == [q[0]] + tail && s[1..] == tail;
      assert s[|run| + 1..] == tail[|run|..];
      assert q[|run| + 1..] == q[1..][|run|..];
    } else {
      assert s[0..] == s && q[0..] == q;
    }
  }

  /** A prefix of the query, as far as the conversion is concerned. */
  predicate PrefixKept(q: string, p: string, inString: bool, index: nat) {
    && (StartsWith(Convert(q, inString, index), p) <==> StartsWith(q, p))
    && (StartsWith(q, p) ==> Convert(q, inString, index) == p + Convert(q[|p|..], inString, index))
  }

  /** A copied prefix without a colon is there after the conversion exactly if it was there before. */
  lemma {:induction false} PrefixOfConvert(q: string, p: string, inString: bool, index: nat)
    requires forall i :: 0 <= i < |p| ==> Copied(p[i]) && p[i] != ':'
    ensures PrefixKept(q, p, inString, index)
    decreases |p|
  {
    if p == "" {
      assert q[0..] == q;
    } else if q != "" && q[0] == p[0] {
      PrefixOfConvert(q[1..], p[1..], inString, index);
      PrefixGrows(q, p, inString, index);
    } else {
      FirstOfConvert(q, inString, index);
      StartsWithFirst(Convert(q, inString, index), p);
      StartsWithFirst(q, p);
    }
  }

  lemma PrefixGrows(q: string, p: string, inString: bool, index: nat)
    requires p != "" && q != "" && q[0] == p[0] && Copied(p[0])
    requires PrefixKept(q[1..], p[1..], inString, index)
    ensures PrefixKept(q, p, inString, index)
  {
    var tail := Convert(q[1..], inString, index);
    var s := [q[0]] + tail;
    ConvertFirst(q, inString, index);
    assert s[1..] == tail;
    StartsWithStep(q, p);
    StartsWithStep(s, p);
    if StartsWith(q, p) {
      assert q[1..][|p[1..]|..] == q[|p|..];
      assert p == [p[0]] + p[1..];
    }
  }

  lemma StartsWithFirst(s: string, p: string)
    requires p != ""
    ensures StartsWith(s, p) ==> s != "" && s[0] == p[0]
  {
    if StartsWith(s, p) {
      assert s[..|p|][0] == s[0];
    }
  }

  lemma StartsWithStep(s: string, p: string)
    requires s != "" && p != "" && s[0] == p[0]
    ensures StartsWith(s, p) <==> StartsWith(s[1..], p[1..])
  {
    if StartsWith(s, p) {
      assert s[1..][..|p| - 1] == s[..|p|][1..];
    }
    if StartsWith(s[1..], p[1..]) {
      assert s[..|p|] == [s[0]] + s[1..][..|p| - 1];
    }
  }

  /** Outside a placeholder, the conversion starts with the parameter prefix exactly if the query does. */
  lemma ParameterPrefix(q: string, inString: bool, index: nat)
    requires q != "" && (q[0] == MARK ==> inString)
    ensures StartsWith(Convert(q, inString, index), PREFIX) <==> StartsWith(q, PREFIX)
    ensures StartsWith(q, PREFIX) ==>
              |Convert(q, inString, index)| >= |PREFIX| &&
              Convert(q, inString, index)[|PREFIX|..] == Convert(q[|PREFIX|..], inString, index)
  {
    var s := Convert(q, inString, index);
    FirstOfConvert(q, inString, index);
    if q[0] == ':' {
      var p := PREFIX[1..];
      var tail := Convert(q[1..], inString, index);
      ConvertFirst(q, inString, index);
      PrefixOfConvert(q[1..], p, inString, index);
      StartsWithStep(q, PREFIX);
      StartsWithStep(s, PREFIX);
      assert s == [':'] + tail && s[1..] == tail;
      if StartsWith(q, PREFIX) {
        assert q[1..][|p|..] == q[|PREFIX|..];
        assert s[|PREFIX|..] == tail[|p|..];
      }
    } else {
      StartsWithFirst(s, PREFIX);
      StartsWithFirst(q, PREFIX);
    }
  }

  /** ... and then the same name follows. */
  lemma ParameterOfConvert(q: string, inString: bool, index: nat)
    requires q != "" && (q[0] == MARK ==> inString)
    ensures AtParameter(Convert(q, inString, index)) <==> AtParameter(q)
    ensures AtParameter(q) ==>
              var run := NameRun(q[|PREFIX|..]);
              && NameRun(Convert(q, inString, index)[|PREFIX|..]) == run && |run| > 0
              && Convert(q, inString, index)[|PREFIX| + |run|..] == Convert(q[|PREFIX| + |run|..], inString, index)
  {
    ParameterPrefix(q, inString, index);
    if StartsWith(q, PREFIX) {
      var s, rest := Convert(q, inString, index), q[|PREFIX|..];
      var run := NameRun(rest);
      RunOfConvert(rest, inString, index);
      FirstOfConvert(rest, inString, index);
      assert s[|PREFIX| + |run|..] == s[|PREFIX|..][|run|..];
      assert rest[|run|..] == q[|PREFIX| + |run|..];
    }
  }

  lemma {:induction false} DigitRun(digits: string, rest: string)
    requires forall i :: 0 <= i < |digits| ==> '0' <= digits[i] <= '9'
    ensures NameRun(digits + rest) == digits + NameRun(rest)
  {
    if digits == "" {
      assert digits + rest == rest;
    } else {
      assert (digits + rest)[1..] == digits[1..] + rest;
      DigitRun(digits[1..], rest);
    }
  }

  lemma Parts(p: string, digits: string, rest: string)
    requires digits != ""
    ensures var s := p + digits + rest;
            && |s| > |p| && StartsWith(s, p) && s[|p|] == digits[0] && s[|p|..] == digits + rest
            && forall n: nat :: n <= |rest| ==> s[|p| + |digits| + n..] == rest[n..]
  {
    var s := p + digits + rest;
    assert s[..|p|] == p;
  }

  lemma ScanParameter(s: string)
    requires AtParameter(s)
    ensures var run := NameRun(s[|PREFIX|..]);
            Scan(s) == [Name(run)] + Scan(s[|PREFIX| + |run|..])
  {
  }

  /** A printed placeholder is found, with whatever digits follow it. */
  lemma ScanNumber(digits: string, rest: string)
    requires digits != "" && forall i :: 0 <= i < |digits| ==> '0' <= digits[i] <= '9'
    ensures var run := NameRun(rest);
            Scan(Named(digits) + rest) == [Name(digits + run)] + Scan(rest[|run|..])
  {
    var s, run := Named(digits) + rest, NameRun(rest);
    Parts(PREFIX, digits, rest);
    DigitRun(digits, rest);
    ScanParameter(s);
    assert |PREFIX| + |digits + run| == |PREFIX| + |digits| + |run|;
  }

  lemma ScanMark(index: nat, rest: string)
    ensures var run := NameRun(rest);
            Scan(Named(Numeral(index)) + rest) == [Name(Numeral(index) + run)] + Scan(rest[|run|..])
  {
    NumeralRoundTrip(index);
    ScanNumber(Numeral(index), rest);
  }

  lemma ScanLiteral(c: char, rest: string)
    requires !AtParameter([c] + rest)
    ensures Scan([c] + rest) == [Literal(c)] + Scan(rest)
  {
    assert ([c] + rest)[1..] == rest;
  }

  lemma ShownFirst(first: Item, rest: seq<Item>)
    ensures Shown([first] + rest)
         == [match first case Char(c) => Literal(c) case Param(k) => Name(Numeral(k))] + Shown(rest)
  {
  }

  /** Reading the converted query finds the specified items, or fewer. */
  predicate ReadsBack(q: string, inString: bool, index: nat) {
    var found := Scan(Convert(q, inString, index));
    if Clean(q, inString) then found == Shown(Items(q, inString, index)) else |found| < |q|
  }

  lemma {:induction false} ScanConverted(q: string, inString: bool, index: nat)
    ensures ReadsBack(q, inString, index)
    decreases |q|
  {
    if q != "" {
      if q[0] == MARK && !inString {
        var rest := q[1..][|NameRun(q[1..])|..];
        ScanConverted(rest, false, index + 1);
        ReadMark(q, index);
      } else if AtParameter(q) {
        var rest := q[|PREFIX| + |NameRun(q[|PREFIX|..])|..];
        ScanConverted(rest, inString, index);
        ReadParameter(q, inString, index);
      } else {
        ScanConverted(q[1..], Toggled(inString, q[0]), index);
        ReadLiteral(q, inString, index);
      }
    }
  }

  lemma ReadLiteral(q: string, inString: bool, index: nat)
    requires q != "" && (q[0] == MARK ==> inString) && !AtParameter(q)
    requires ReadsBack(q[1..], Toggled(inString, q[0]), index)
    ensures ReadsBack(q, inString, index)
  {
    CleanStep(q, inString);
    ItemsStep(q, inString, index);
    ParameterOfConvert(q, inString, index);
    ConvertOne(q, inString, index);
    ScanLiteral(q[0], Convert(q[1..], Toggled(inString, q[0]), index));
    ShownFirst(Char(q[0]), Items(q[1..], Toggled(inString, q[0]), index));
  }

  lemma ReadParameter(q: string, inString: bool, index: nat)
    requires q != "" && (q[0] == MARK ==> inString) && AtParameter(q)
    requires ReadsBack(q[|PREFIX| + |NameRun(q[|PREFIX|..])|..], inString, index)
    ensures ReadsBack(q, inString, index)
  {
    CleanStep(q, inString);
    ParameterOfConvert(q, inString, index);
    ScanParameter(Convert(q, inString, index));
  }

  lemma ReadMark(q: string, index: nat)
    requires q != "" && q[0] == MARK
    requires ReadsBack(q[1..][|NameRun(q[1..])|..], false, index + 1)
    ensures ReadsBack(q, false, index)
  {
    CleanStep(q, false);
    ItemsStep(q, false, index);
    var tail := q[1..];
    var run := NameRun(tail);
    ScanMark(index, Convert(tail, false, index + 1));
    RunOfConvert(tail, false, index + 1);
    StartsWithFirst(q, PREFIX);
    if run == "" {
      assert tail[0..] == tail && Numeral(index) + run == Numeral(index);
      ShownFirst(Param(index), Items(tail, false, index + 1));
    } else {
      assert Digit(q[1]);
    }
  }

  // ---------------------------------------------------------------- the whole query

  /** A `?` of the query that stands for a parameter: an even number of quotes precedes it. */
  predicate IsPlaceholder(q: string, i: nat)
    requires i < |q|
  {
    q[i] == MARK && Quotes(q[..i]) % 2 == 0
  }

  function PlaceholderCount(q: string, n: nat): nat
    requires n <= |q|
  {
    if n == 0 then 0 else PlaceholderCount(q, n - 1) + if IsPlaceholder(q, n - 1) then 1 else 0
  }

  lemma {:induction false} PlaceholdersAreMarks(q: string, n: nat)
    requires n <= |q|
    ensures PlaceholderCount(q, n) == Marks(q, false, n)
  {
    if n > 0 {
      PlaceholdersAreMarks(q, n - 1);
    }
  }

  /** The k-th placeholder becomes :param_k and every other character is copied. */
  lemma ConvertSubstitutes(q: string) returns (items: seq<Item>)
    ensures Convert(q, false, 0) == Print(items) && |items| == |q|
    ensures forall i :: 0 <= i < |q| ==>
              items[i] == if IsPlaceholder(q, i) then Param(PlaceholderCount(q, i)) else Char(q[i])
  {
    items := Items(q, false, 0);
    ConvertPrintsItems(q, false, 0);
    forall i | 0 <= i < |q|
      ensures items[i] == if IsPlaceholder(q, i) then Param(PlaceholderCount(q, i)) else Char(q[i])
    {
      PlaceholdersAreMarks(q, i);
    }
  }

  /** Turning every :param_ numeral back into `?`. */
  function Restore(found: seq<Found>): (q: string)
    ensures |q| == |found|
    ensures forall i :: 0 <= i < |q| ==> q[i] == match found[i] case Literal(c) => c case Name(_) => MARK
  {
    seq(|found|, i requires 0 <= i < |found| => match found[i] case Literal(c) => c case Name(_) => MARK)
  }

  /** No placeholder is directly followed by a digit, and no parameter is written out in the query. */
  predicate Separated(q: string) {
    && (forall i :: 0 <= i < |q| && IsPlaceholder(q, i) ==> i + 1 == |q| || !Digit(q[i + 1]))
    && (forall i :: 0 <= i < |q| ==> !AtParameter(q[i..]))
  }

  lemma SeparatedIsClean(q: string)
    ensures Separated(q) <==> Clean(q, false)
  {
    assert forall i :: 0 <= i < |q| ==> IsPlaceholder(q, i) == IsMark(q, false, i);
  }

  lemma RestoreItems(q: string)
    ensures Restore(Shown(Items(q, false, 0))) == q
  {
  }

  /**
   The conversion can be undone exactly when the query holds no :param_ numeral itself and no
   placeholder is directly followed by a digit.
   */
  lemma RestoreUndoesConvert(q: string)
    ensures Restore(Scan(Convert(q, false, 0))) == q <==> Separated(q)
  {
    ScanConverted(q, false, 0);
    SeparatedIsClean(q);
    RestoreItems(q);
  }
}
