/** Running a converted query: raw_select_all, raw_execute and the binding of their parameters. */
module Binding {
  /*
   SQLAlchemy's text() finds the named parameters in the converted text and takes their values
   from {"param_0": args[0], ...}.  It does not know which colons the conversion wrote.  The
   reader below finds parameters as its pattern does: a colon not preceded by a word character,
   a colon or a backslash, then the longest run of word characters that no colon follows.
   Whether binding by name is binding by position therefore depends on the characters around
   the placeholders, exactly as stated here.
   */
  import opened Options
  import opened Placeholders
  import opened Text

  // ---------------------------------------------------------------- the reader

  predicate Word(c: char) {
    '0' <= c <= '9' || 'a' <= c <= 'z' || 'A' <= c <= 'Z' || c == '_'
  }

  /** No parameter starts behind this character. */
  predicate Blocks(c: char) {
    Word(c) || c == ':' || c == '\\'
  }

  function WordRun(s: string): (run: string)
    ensures run <= s
    ensures forall i :: 0 <= i < |run| ==> Word(run[i])
    ensures |run| < |s| ==> !Word(s[|run|])
  {
    if s != "" && Word(s[0]) then [s[0]] + WordRun(s[1..]) else ""
  }

  /** The longest run of word characters that no colon follows: all of the run, or all but its last. */
  function NameAt(s: string): (name: string)
    ensures name <= s
  {
    var run := WordRun(s);
    if run != "" && |run| < |s| && s[|run|] == ':' then run[..|run| - 1] else run
  }

  /** A parameter starts here; blocked says that the character before forbids it. */
  predicate AtName(blocked: bool, s: string) {
    !blocked && s != "" && s[0] == ':' && NameAt(s[1..]) != ""
  }

  /** A character of the text, or a parameter. */
  datatype Token = Plain(c: char) | Parameter(name: string)

  function Read(blocked: bool, s: string): seq<Token>
    decreases |s|
  {
    if s == "" then []
    else if AtName(blocked, s) then
      var name := NameAt(s[1..]);
      [Parameter(name)] + Read(true, s[1 + |name|..])
    else [Plain(s[0])] + Read(Blocks(s[0]), s[1..])
  }

  lemma ReadName(s: string, name: string)
    requires s != "" && s[0] == ':' && NameAt(s[1..]) == name && name != ""
    ensures Read(false, s) == [Parameter(name)] + Read(true, s[1 + |name|..])
  {
  }

  lemma ReadPlain(blocked: bool, c: char, rest: string)
    requires c == ':' ==> blocked || NameAt(rest) == ""
    ensures Read(blocked, [c] + rest) == [Plain(c)] + Read(Blocks(c), rest)
  {
    assert ([c] + rest)[1..] == rest;
  }

  // ---------------------------------------------------------------- what the conversion does to names

  /** Behind the run comes what the reader sees as a colon: a colon, or a placeholder. */
  predicate ColonNext(q: string, inString: bool) {
    q != "" && (q[0] == ':' || (q[0] == MARK && !inString))
  }

  /** The name that the reader will find at the front of q once q is converted. */
  function NameIn(q: string, inString: bool): (name: string)
    ensures name <= q
  {
    var run := WordRun(q);
    if run != "" && ColonNext(q[|run|..], inString) then run[..|run| - 1] else run
  }

  lemma ColonOfConvert(q: string, inString: bool, index: nat)
    ensures var s := Convert(q, inString, index);
            && (s == "" <==> q == "") && ((s != "" && s[0] == ':') <==> ColonNext(q, inString))
            && (s != "" && s[0] != ':' ==> s[0] == q[0])
  {
    FirstOfConvert(q, inString, index);
  }

  lemma FirstWord(c: char, rest: string)
    requires Word(c)
    ensures WordRun([c] + rest) == [c] + WordRun(rest)
  {
    assert ([c] + rest)[1..] == rest;
  }

  lemma {:induction false} WordsOfConvert(q: string, inString: bool, index: nat)
    ensures var run := WordRun(q);
            && WordRun(Convert(q, inString, index)) == run
            && Convert(q, inString, index) == run + Convert(q[|run|..], inString, index)
    decreases |q|
  {
    if q != "" && Word(q[0]) {
      var c, rest := q[0], q[1..];
      var tail, run := Convert(rest, inString, index), WordRun(rest);
      assert Convert(q, inString, index) == [c] + tail by {
        ConvertFirst(q, inString, index);
      }
      WordsOfConvert(rest, inString, index);
      FirstWord(c, tail);
      FirstWord(c, rest);
      assert q == [c] + rest;
      assert q[|[c] + run|..] == rest[|run|..];
      Append([c], run, Convert(rest[|run|..], inString, index));
    } else {
      ColonOfConvert(q, inString, index);
      assert WordRun(q) == "" && q[0..] == q;
    }
  }

  lemma NameOfConvert(q: string, inString: bool, index: nat)
    ensures NameAt(Convert(q, inString, index)) == NameIn(q, inString)
  {
    var run := WordRun(q);
    WordsOfConvert(q, inString, index);
    ColonOfConvert(q[|run|..], inString, index);
  }

  /** A printed placeholder and what follows it, as one run of word characters. */
  lemma {:induction false} WordsGlue(front: string, rest: string)
    requires forall i :: 0 <= i < |front| ==> Word(front[i])
    ensures WordRun(front + rest) == front + WordRun(rest)
  {
    if front == "" {
      assert front + rest == rest;
    } else {
      assert (front + rest)[1..] == front[1..] + rest;
      WordsGlue(front[1..], rest);
    }
  }

  function Key(k: nat): string {
    "param_" + Numeral(k)
  }

  lemma KeyIsWord(k: nat)
    ensures Named(Numeral(k)) == [':'] + Key(k) && |Key(k)| > 6
    ensures forall i :: 0 <= i < |Key(k)| ==> Word(Key(k)[i])
  {
    NumeralRoundTrip(k);
    var p := "param_";
    assert forall i :: 0 <= i < 6 ==> Word(p[i]);
    assert PREFIX == [':'] + p;
  }

  /** The name found at a printed placeholder, given the query behind it. */
  lemma NameOfMark(key: string, q: string, index: nat)
    requires |key| > 1 && forall i :: 0 <= i < |key| ==> Word(key[i])
    ensures NameAt(key + Convert(q, false, index)) ==
            if WordRun(q) == "" && ColonNext(q, false) then key[..|key| - 1] else key + NameIn(q, false)
  {
    var s, run := Convert(q, false, index), WordRun(q);
    WordsGlue(key, s);
    WordsOfConvert(q, false, index);
    ColonOfConvert(q[|run|..], false, index);
    assert q[0..] == q;
  }

  // ---------------------------------------------------------------- where placeholders are bound

  /** A placeholder that is read as one, with the query q behind it. */
  predicate MarkIsRead(blocked: bool, q: string) {
    !blocked && NameIn(q, false) == "" && (WordRun(q) == "" ==> !ColonNext(q, false))
  }

  /** A character of the query that is read as such. */
  predicate CharIsRead(blocked: bool, c: char, q: string, inString: bool) {
    c == ':' ==> blocked || NameIn(q, inString) == ""
  }

  predicate AllRead(q: string, blocked: bool, inString: bool)
    decreases |q|
  {
    q == "" ||
    if q[0] == MARK && !inString then MarkIsRead(blocked, q[1..]) && AllRead(q[1..], true, false)
    else CharIsRead(blocked, q[0], q[1..], inString) && AllRead(q[1..], Blocks(q[0]), Toggled(inString, q[0]))
  }

  /** The reader sees the placeholders of q as parameters and every other character as itself. */
  predicate Shape(found: seq<Token>, q: string, inString: bool) {
    && |found| == |q|
    && forall i :: 0 <= i < |q| ==> if IsMark(q, inString, i) then found[i].Parameter? else found[i] == Plain(q[i])
  }

  function Wanted(items: seq<Item>): (found: seq<Token>)
    ensures |found| == |items|
    ensures forall i :: 0 <= i < |items| ==>
              found[i] == match items[i] case Char(c) => Plain(c) case Param(k) => Parameter(Key(k))
  {
    seq(|items|, i requires 0 <= i < |items| =>
      match items[i] case Char(c) => Plain(c) case Param(k) => Parameter(Key(k)))
  }

  lemma ShapeStep(first: Token, found: seq<Token>, q: string, inString: bool)
    requires q != ""
    ensures Shape([first] + found, q, inString) <==>
              && (if q[0] == MARK && !inString then first.Parameter? else first == Plain(q[0]))
              && Shape(found, q[1..], Toggled(inString, q[0]))
  {
    var all, tail := [first] + found, q[1..];
    FirstMark(q, inString);
    forall i | 0 < i < |q| ensures IsMark(q, inString, i) == IsMark(tail, Toggled(inString, q[0]), i - 1) {
      MarkStep(q, inString, i);
    }
    if Shape(all, q, inString) {
      assert forall i :: 0 <= i < |tail| ==> found[i] == all[i + 1] && tail[i] == q[i + 1];
    }
  }

  lemma WantedStep(q: string, inString: bool, index: nat)
    requires q != ""
    ensures Wanted(Items(q, inString, index)) ==
            [match FirstItem(q[0], inString, index) case Char(c) => Plain(c) case Param(k) => Parameter(Key(k))]
            + Wanted(Items(q[1..], Toggled(inString, q[0]), Counted(q[0], inString, index)))
  {
    ItemsStep(q, inString, index);
  }

  /** What reading the converted q gives: the wanted items, or something of another shape. */
  predicate ReadsAs(q: string, blocked: bool, inString: bool, index: nat) {
    var found := Read(blocked, Convert(q, inString, index));
    if AllRead(q, blocked, inString) then found == Wanted(Items(q, inString, index))
    else !Shape(found, q, inString)
  }

  lemma WantedShape(q: string, inString: bool, index: nat)
    ensures Shape(Wanted(Items(q, inString, index)), q, inString)
  {
  }

  lemma MarkOfConvert(q: string, index: nat)
    requires q != "" && q[0] == MARK
    ensures Convert(q, false, index) == [':'] + (Key(index) + Convert(q[1..], false, index + 1))
  {
    KeyIsWord(index);
    var rest := Convert(q[1..], false, index + 1);
    assert [':'] + Key(index) + rest == [':'] + (Key(index) + rest);
  }

  /** A placeholder that is read. */
  lemma MarkAsRead(q: string, index: nat)
    requires q != "" && q[0] == MARK && MarkIsRead(false, q[1..])
    ensures Read(false, Convert(q, false, index))
         == [Parameter(Key(index))] + Read(true, Convert(q[1..], false, index + 1))
  {
    var rest := Convert(q[1..], false, index + 1);
    var s := [':'] + (Key(index) + rest);
    KeyIsWord(index);
    MarkOfConvert(q, index);
    NameOfMark(Key(index), q[1..], index + 1);
    assert s[1..] == Key(index) + rest && Key(index) + "" == Key(index);
    ReadName(s, Key(index));
    assert s[1 + |Key(index)|..] == rest;
  }

  /** A placeholder behind a character that blocks it is text. */
  lemma MarkIsBlocked(q: string, index: nat)
    requires q != "" && q[0] == MARK
    ensures !Shape(Read(true, Convert(q, false, index)), q, false)
  {
    MarkOfConvert(q, index);
    ReadPlain(true, ':', Key(index) + Convert(q[1..], false, index + 1));
    FirstMark(q, false);
  }

  lemma ReadCut(key: string, rest: string)
    requires |key| > 1 && Word(key[|key| - 1]) && NameAt(key + rest) == key[..|key| - 1]
    ensures var found := Read(false, [':'] + (key + rest)); |found| > 1 && found[1] == Plain(key[|key| - 1])
  {
    var n := |key| - 1;
    var s := [':'] + (key + rest);
    assert s[1..] == key + rest;
    ReadName(s, key[..n]);
    assert s[1 + n..] == [key[n]] + rest;
    ReadPlain(true, key[n], rest);
  }

  /** A placeholder directly before a colon or another placeholder loses its last digit. */
  lemma MarkIsCut(q: string, index: nat)
    requires q != "" && q[0] == MARK && WordRun(q[1..]) == "" && ColonNext(q[1..], false)
    ensures !Shape(Read(false, Convert(q, false, index)), q, false)
  {
    KeyIsWord(index);
    MarkOfConvert(q, index);
    NameOfMark(Key(index), q[1..], index + 1);
    ReadCut(Key(index), Convert(q[1..], false, index + 1));
    assert q[1] == q[1..][0];
  }

  lemma ReadGlued(key: string, name: string, rest: string)
    requires key != "" && NameAt(key + (name + rest)) == key + name
    ensures Read(false, [':'] + (key + (name + rest))) == [Parameter(key + name)] + Read(true, rest)
  {
    var s := [':'] + (key + (name + rest));
    assert s[1..] == key + (name + rest);
    ReadName(s, key + name);
    assert s[1 + |key + name|..] == rest;
  }

  /** A placeholder before word characters takes them into its name. */
  lemma ExtendedName(q: string, index: nat, rest: string)
    requires q != "" && q[0] == MARK && NameIn(q[1..], false) != ""
    requires Convert(q[1..], false, index + 1) == NameIn(q[1..], false) + rest
    ensures Read(false, Convert(q, false, index)) == [Parameter(Key(index) + NameIn(q[1..], false))] + Read(true, rest)
  {
    var key, tail := Key(index), q[1..];
    KeyIsWord(index);
    MarkOfConvert(q, index);
    assert NameAt(key + Convert(tail, false, index + 1)) == key + NameIn(tail, false) by {
      NameOfMark(key, tail, index + 1);
    }
    ReadGlued(key, NameIn(tail, false), rest);
  }

  /** A whole run was taken: what follows is no word character. */
  lemma AfterWholeRun(rest: string)
    requires rest != "" ==> !Word(rest[0])
    ensures var found := Read(true, rest); |found| >= 1 ==> found[0].Plain? && !Word(found[0].c)
  {
    if rest != "" {
      ReadPlain(true, rest[0], rest[1..]);
      assert rest == [rest[0]] + rest[1..];
    }
  }

  /** The run gave back its last character: that and a colon follow. */
  lemma AfterCutRun(last: char, rest: string)
    requires rest != "" && rest[0] == ':' && Word(last)
    ensures var found := Read(true, [last] + rest); |found| >= 2 && found[1] == Plain(':')
  {
    ReadPlain(true, last, rest);
    ReadPlain(true, ':', rest[1..]);
    assert rest == [':'] + rest[1..];
  }

  lemma NotBehindMark(found: seq<Token>, q: string)
    requires |q| > 1 && q[0] == MARK && Word(q[1])
    requires |found| > 1 && found[1] == Plain(q[1]) ==> |q| > 2 && Word(q[2]) && |found| > 2 && found[2] == Plain(':')
    ensures !Shape(found, q, false)
  {
  }

  /** What is left behind the name: the last of the run and a colon, or no word character. */
  lemma AfterName(q: string, index: nat) returns (after: string, cut: bool)
    requires NameIn(q, false) != ""
    ensures Convert(q, false, index) == NameIn(q, false) + after && Word(q[0])
    ensures cut ==> |q| > 1 && Word(q[1]) && |after| > 1 && Word(after[0]) && after[1] == ':'
    ensures !cut && after != "" ==> !Word(after[0])
  {
    var run := WordRun(q);
    var rest := Convert(q[|run|..], false, index);
    assert Convert(q, false, index) == run + rest by {
      WordsOfConvert(q, false, index);
    }
    assert rest != "" ==> rest[0] == ':' || !Word(rest[0]) by {
      ColonOfConvert(q[|run|..], false, index);
    }
    assert ColonNext(q[|run|..], false) ==> rest != "" && rest[0] == ':' by {
      ColonOfConvert(q[|run|..], false, index);
    }
    assert Word(run[0]) && run[0] == q[0];
    cut := NameIn(q, false) != run;
    if cut {
      var n := |run| - 1;
      after := [run[n]] + rest;
      Append(run[..n], [run[n]], rest);
      assert run == run[..n] + [run[n]];
      assert Word(run[1]) && run[1] == q[1];
    } else {
      after := rest;
    }
  }

  lemma MarkIsExtended(q: string, index: nat)
    requires q != "" && q[0] == MARK && NameIn(q[1..], false) != ""
    ensures !Shape(Read(false, Convert(q, false, index)), q, false)
  {
    var tail := q[1..];
    var after, cut := AfterName(tail, index + 1);
    ExtendedName(q, index, after);
    assert tail[0] == q[1] && (|tail| > 1 ==> tail[1] == q[2]);
    if cut {
      AfterCutRun(after[0], after[1..]);
      assert after == [after[0]] + after[1..];
    } else {
      AfterWholeRun(after);
    }
    NotBehindMark([Parameter(Key(index) + NameIn(tail, false))] + Read(true, after), q);
  }

  /** A colon of the query that starts a parameter of its own. */
  lemma OwnParameter(q: string, inString: bool, index: nat)
    requires q != "" && q[0] == ':' && NameIn(q[1..], inString) != ""
    ensures !Shape(Read(false, Convert(q, inString, index)), q, inString)
  {
    var tail := Convert(q[1..], inString, index);
    ConvertOne(q, inString, index);
    NameOfConvert(q[1..], inString, index);
    assert ([':'] + tail)[1..] == tail;
    ReadName([':'] + tail, NameIn(q[1..], inString));
    FirstMark(q, inString);
  }

  lemma CharOfConvert(q: string, blocked: bool, inString: bool, index: nat)
    requires q != "" && (q[0] == MARK ==> inString)
    requires CharIsRead(blocked, q[0], q[1..], inString)
    ensures Read(blocked, Convert(q, inString, index))
         == [Plain(q[0])] + Read(Blocks(q[0]), Convert(q[1..], Toggled(inString, q[0]), index))
  {
    ConvertOne(q, inString, index);
    if q[0] == ':' {
      NameOfConvert(q[1..], inString, index);
    }
    ReadPlain(blocked, q[0], Convert(q[1..], Toggled(inString, q[0]), index));
  }

  lemma {:induction false} ReadConverted(q: string, blocked: bool, inString: bool, index: nat)
    ensures ReadsAs(q, blocked, inString, index)
    decreases |q|
  {
    if q == "" {
      assert Read(blocked, Convert(q, inString, index)) == [];
    } else if q[0] == MARK && !inString {
      ReadConverted(q[1..], true, false, index + 1);
      MarkCase(q, blocked, index);
    } else {
      ReadConverted(q[1..], Blocks(q[0]), Toggled(inString, q[0]), index);
      CharCase(q, blocked, inString, index);
    }
  }

  lemma MarkCase(q: string, blocked: bool, index: nat)
    requires q != "" && q[0] == MARK && ReadsAs(q[1..], true, false, index + 1)
    ensures ReadsAs(q, blocked, false, index)
  {
    if MarkIsRead(blocked, q[1..]) {
      MarkAsRead(q, index);
      WantedStep(q, false, index);
      ShapeStep(Parameter(Key(index)), Read(true, Convert(q[1..], false, index + 1)), q, false);
    } else if blocked {
      MarkIsBlocked(q, index);
    } else if NameIn(q[1..], false) != "" {
      MarkIsExtended(q, index);
    } else {
      MarkIsCut(q, index);
    }
  }

  lemma CharCase(q: string, blocked: bool, inString: bool, index: nat)
    requires q != "" && (q[0] == MARK ==> inString)
    requires ReadsAs(q[1..], Blocks(q[0]), Toggled(inString, q[0]), index)
    ensures ReadsAs(q, blocked, inString, index)
  {
    if CharIsRead(blocked, q[0], q[1..], inString) {
      CharOfConvert(q, blocked, inString, index);
      WantedStep(q, inString, index);
      ShapeStep(Plain(q[0]), Read(Blocks(q[0]), Convert(q[1..], Toggled(inString, q[0]), index)), q, inString);
    } else {
      OwnParameter(q, inString, index);
    }
  }

  // ---------------------------------------------------------------- the same, character by character

  /** Position i lies inside a literal. */
  predicate InLiteral(q: string, inString: bool, i: nat)
    requires i <= |q|
  {
    (Quotes(q[..i]) + if inString then 1 else 0) % 2 == 1
  }

  /** The character before position i of the converted query lets no parameter start at i. */
  predicate BlockedAt(q: string, blocked: bool, inString: bool, i: nat)
    requires i < |q|
  {
    if i == 0 then blocked else Blocks(q[i - 1]) || IsMark(q, inString, i - 1)
  }

  predicate ReadAt(q: string, blocked: bool, inString: bool, i: nat)
    requires i < |q|
  {
    if IsMark(q, inString, i) then MarkIsRead(BlockedAt(q, blocked, inString, i), q[i + 1..])
    else CharIsRead(BlockedAt(q, blocked, inString, i), q[i], q[i + 1..], InLiteral(q, inString, i))
  }

  lemma LiteralStep(q: string, inString: bool, i: nat)
    requires 0 < i <= |q|
    ensures InLiteral(q, inString, i) == InLiteral(q[1..], Toggled(inString, q[0]), i - 1)
  {
    assert q[..i][1..] == q[1..][..i - 1];
  }

  lemma ReadAtStep(q: string, blocked: bool, inString: bool, i: nat)
    requires 0 < i < |q|
    ensures var next := if q[0] == MARK && !inString then true else Blocks(q[0]);
            ReadAt(q, blocked, inString, i) == ReadAt(q[1..], next, Toggled(inString, q[0]), i - 1)
  {
    MarkStep(q, inString, i);
    LiteralStep(q, inString, i);
    FirstMark(q, inString);
    if i > 1 {
      MarkStep(q, inString, i - 1);
    }
    assert q[1..][i..] == q[i + 1..];
  }

  lemma {:induction false} AllReadMeans(q: string, blocked: bool, inString: bool)
    ensures AllRead(q, blocked, inString) <==> forall i :: 0 <= i < |q| ==> ReadAt(q, blocked, inString, i)
    decreases |q|
  {
    if q != "" {
      var tail := q[1..];
      var next := if q[0] == MARK && !inString then true else Blocks(q[0]);
      var inTail := Toggled(inString, q[0]);
      AllReadMeans(tail, next, inTail);
      FirstMark(q, inString);
      assert q[..0] == "" && q[0 + 1..] == tail;
      forall i | 0 < i < |q| ensures ReadAt(q, blocked, inString, i) == ReadAt(tail, next, inTail, i - 1) {
        ReadAtStep(q, blocked, inString, i);
      }
      if forall i :: 0 <= i < |q| ==> ReadAt(q, blocked, inString, i) {
        assert ReadAt(q, blocked, inString, 0);
        forall i | 0 <= i < |tail| ensures ReadAt(tail, next, inTail, i) {
          assert ReadAt(q, blocked, inString, i + 1);
        }
      }
    }
  }

  /** A placeholder text() finds: nothing that blocks before it, and behind it neither a name nor a colon. */
  predicate PlaceholderStands(q: string, i: nat)
    requires i < |q|
  {
    var run := WordRun(q[i + 1..]);
    var colon := ColonNext(q[i + 1..][|run|..], false);
    && (i > 0 ==> !Blocks(q[i - 1]) && !IsPlaceholder(q, i - 1))
    && (if colon then |run| == 1 else |run| == 0)
  }

  /** A colon of the query that text() takes for a parameter. */
  predicate OwnParameterAt(q: string, i: nat)
    requires i < |q|
  {
    var run := WordRun(q[i + 1..]);
    var colon := ColonNext(q[i + 1..][|run|..], Quotes(q[..i]) % 2 == 1);
    && q[i] == ':' && (i > 0 ==> !Blocks(q[i - 1]) && !IsPlaceholder(q, i - 1))
    && (if colon then |run| > 1 else |run| > 0)
  }

  /**
   Every placeholder stands apart and no parameter is written out.  A single word character
   between a placeholder and a colon does no harm, since the reader gives it back.
   */
  predicate Bindable(q: string) {
    && (forall i :: 0 <= i < |q| && IsPlaceholder(q, i) ==> PlaceholderStands(q, i))
    && (forall i :: 0 <= i < |q| ==> !OwnParameterAt(q, i))
  }

  lemma BindableAt(q: string, i: nat)
    requires i < |q|
    ensures ReadAt(q, false, false, i) <==>
              (IsPlaceholder(q, i) ==> PlaceholderStands(q, i)) && !OwnParameterAt(q, i)
  {
    assert IsPlaceholder(q, i) == IsMark(q, false, i);
    assert i > 0 ==> IsPlaceholder(q, i - 1) == IsMark(q, false, i - 1);
    assert q[i + 1..][0..] == q[i + 1..];
  }

  lemma BindableIsRead(q: string)
    ensures AllRead(q, false, false) <==> Bindable(q)
  {
    AllReadMeans(q, false, false);
    forall i | 0 <= i < |q|
      ensures ReadAt(q, false, false, i) <==> (IsPlaceholder(q, i) ==> PlaceholderStands(q, i)) && !OwnParameterAt(q, i)
    {
      BindableAt(q, i);
    }
  }

  // ---------------------------------------------------------------- binding

  /** A statement with its values filled in: text characters and values. */
  datatype Bound<V> = Text(c: char) | Value(v: V)

  /** {"param_0": args[0], ...} */
  function NamedArgs<V>(args: seq<V>): map<string, V> {
    if args == [] then map[] else NamedArgs(args[..|args| - 1])[Key(|args| - 1) := args[|args| - 1]]
  }

  /** Binding by name: every parameter found takes the value of its name; None where it has none. */
  function BindNamed<V>(found: seq<Token>, params: map<string, V>): Option<seq<Bound<V>>> {
    if found == [] then Some([])
    else
      var before := BindNamed(found[..|found| - 1], params);
      match found[|found| - 1]
      case Plain(c) => if before.None? then None else Some(before.value + [Text(c)])
      case Parameter(name) => if before.None? || name !in params then None
        else Some(before.value + [Value(params[name])])
  }

  /** Binding by position: the k-th placeholder takes the k-th argument; None where there are too few. */
  function BindPositional<V>(q: string, n: nat, args: seq<V>): Option<seq<Bound<V>>>
    requires n <= |q|
  {
    if n == 0 then Some([])
    else
      var before := BindPositional(q, n - 1, args);
      if before.None? then None
      else if !IsPlaceholder(q, n - 1) then Some(before.value + [Text(q[n - 1])])
      else if PlaceholderCount(q, n - 1) < |args| then Some(before.value + [Value(args[PlaceholderCount(q, n - 1)])])
      else None
  }

  lemma KeysDiffer(i: nat, j: nat)
    requires Key(i) == Key(j)
    ensures i == j
  {
    NumeralRoundTrip(i);
    NumeralRoundTrip(j);
    assert Key(i)[6..] == Numeral(i) && Key(j)[6..] == Numeral(j);
  }

  lemma {:induction false} NamedArg<V>(args: seq<V>, k: nat)
    ensures Key(k) in NamedArgs(args) <==> k < |args|
    ensures k < |args| ==> NamedArgs(args)[Key(k)] == args[k]
  {
    if args != [] {
      var n := |args| - 1;
      NamedArg(args[..n], k);
      if Key(k) == Key(n) {
        KeysDiffer(k, n);
      }
    }
  }

  lemma WantedAt(q: string, i: nat)
    requires i < |q|
    ensures Wanted(Items(q, false, 0))[i] ==
            if IsPlaceholder(q, i) then Parameter(Key(PlaceholderCount(q, i))) else Plain(q[i])
  {
    PlaceholdersAreMarks(q, i);
  }

  lemma {:induction false} BindPrefix<V>(q: string, found: seq<Token>, n: nat, args: seq<V>)
    requires n <= |q| && found == Wanted(Items(q, false, 0))
    ensures BindNamed(found[..n], NamedArgs(args)) == BindPositional(q, n, args)
  {
    if n > 0 {
      BindPrefix(q, found, n - 1, args);
      assert found[..n][..n - 1] == found[..n - 1];
      WantedAt(q, n - 1);
      NamedArg(args, PlaceholderCount(q, n - 1));
    }
  }

  /** What a bound statement shows of the items found. */
  lemma {:induction false} BoundItems<V>(found: seq<Token>, params: map<string, V>)
    requires BindNamed(found, params).Some?
    ensures var b := BindNamed(found, params).value;
            && |b| == |found|
            && forall i :: 0 <= i < |b| ==> if found[i].Parameter? then b[i].Value? else b[i] == Text(found[i].c)
  {
    if found != [] {
      BoundItems(found[..|found| - 1], params);
    }
  }

  lemma {:induction false} PlaceholdersGrow(q: string, m: nat, n: nat)
    requires m <= n <= |q|
    ensures PlaceholderCount(q, m) <= PlaceholderCount(q, n)
  {
    if m < n {
      PlaceholdersGrow(q, m, n - 1);
    }
  }

  lemma {:induction false} BoundQuery<V>(q: string, n: nat, args: seq<V>)
    requires n <= |q| && PlaceholderCount(q, n) <= |args|
    ensures BindPositional(q, n, args).Some?
    ensures var b := BindPositional(q, n, args).value;
            |b| == n && forall i :: 0 <= i < n ==> if IsPlaceholder(q, i) then b[i].Value? else b[i] == Text(q[i])
  {
    if n > 0 {
      BoundQuery(q, n - 1, args);
    }
  }

  /** Equally bound statements have placeholders in the same places. */
  lemma SameShape<V>(q: string, found: seq<Token>, args: seq<V>)
    requires PlaceholderCount(q, |q|) <= |args|
    requires BindNamed(found, NamedArgs(args)) == BindPositional(q, |q|, args)
    ensures Shape(found, q, false)
  {
    BoundQuery(q, |q|, args);
    BoundItems(found, NamedArgs(args));
    assert forall i :: 0 <= i < |q| ==> IsPlaceholder(q, i) == IsMark(q, false, i);
  }

  /**
   Binding the converted query by name is binding the original one by position, with any number
   of arguments, if the query is bindable; and with enough arguments only then.
   */
  lemma NamedBindingIsPositional<V>(q: string, args: seq<V>)
    ensures var named := BindNamed(Read(false, Convert(q, false, 0)), NamedArgs(args));
            && (Bindable(q) ==> named == BindPositional(q, |q|, args))
            && (PlaceholderCount(q, |q|) <= |args| ==> (named == BindPositional(q, |q|, args) <==> Bindable(q)))
  {
    var found := Read(false, Convert(q, false, 0));
    ReadConverted(q, false, false, 0);
    BindableIsRead(q);
    if Bindable(q) {
      BindPrefix(q, found, |q|, args);
      assert found[..|q|] == found;
    } else if PlaceholderCount(q, |q|) <= |args| && BindNamed(found, NamedArgs(args)) == BindPositional(q, |q|, args) {
      SameShape(q, found, args);
      assert false;
    }
  }

  /** A placeholder glued to a word, as in LIMIT?, is not bound. */
  lemma GluedToWord<V>(c: char, v: V)
    requires Word(c)
    ensures BindNamed(Read(false, Convert([c, MARK], false, 0)), NamedArgs([v])) != BindPositional([c, MARK], 2, [v])
  {
    var q := [c, MARK];
    assert q[..0] == [] && q[..1] == [c] && [c][1..] == [];
    assert Quotes([c]) == Quotes([c][1..]) == 0;
    assert PlaceholderCount(q, 0) == 0 && PlaceholderCount(q, 1) == 0;
    assert IsPlaceholder(q, 1) && !PlaceholderStands(q, 1);
    NamedBindingIsPositional(q, [v]);
  }

  /** A placeholder before a colon, as in ?::int, is not bound. */
  lemma GluedToColon<V>(v: V)
    ensures var q := [MARK, ':', ':'];
            BindNamed(Read(false, Convert(q, false, 0)), NamedArgs([v])) != BindPositional(q, 3, [v])
  {
    var q := [MARK, ':', ':'];
    assert q[..0] == [];
    assert PlaceholderCount(q, 0) == 0 && PlaceholderCount(q, 1) <= 1 && PlaceholderCount(q, 2) <= 1
      && PlaceholderCount(q, 3) <= 1;
    assert q[1..] == [':', ':'] && WordRun(q[1..]) == "" && q[1..][0..] == q[1..];
    assert IsPlaceholder(q, 0) && !PlaceholderStands(q, 0);
    NamedBindingIsPositional(q, [v]);
  }
}
