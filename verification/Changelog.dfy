/**
 The changelog reader behind the release notes (parse_changelog_text, parse_release_body): a line
 scanner with the current section and the bullet being collected as its state.

 The rewriting of a bullet line (hex prefixes, links, commit suffixes) is a parameter.  Texts are
 ASCII here.

 The reader is shown to undo a printer, up to the rewriting of every line, on sections in normal
 form: the version is three numbers; every line is trimmed and not the heading of a bucket; and a
 bullet, once its lines are rewritten, has text at both ends and no two blank lines in a row.
 */
module Changelog {
  import opened Options
  import opened Text

  type Transform = string -> string

  // ---------------------------------------------------------------- lines

  const NEWLINE: char := '\n'

  function JoinLines(lines: seq<string>): string {
    if lines == [] then ""
    else if |lines| == 1 then lines[0]
    else lines[0] + [NEWLINE] + JoinLines(lines[1..])
  }

  /** text.split("\n") */
  function SplitLines(text: string): (lines: seq<string>)
    ensures lines != []
  {
    if text == "" then [""]
    else
      var rest := SplitLines(text[1..]);
      if text[0] == NEWLINE then [""] + rest else [[text[0]] + rest[0]] + rest[1..]
  }

  function StripLeft(s: string): string {
    if s != "" && IsSpace(s[0]) then StripLeft(s[1..]) else s
  }

  function StripRight(s: string): string {
    if s != "" && IsSpace(s[|s| - 1]) then StripRight(s[..|s| - 1]) else s
  }

  predicate IsDigit(c: char) {
    '0' <= c <= '9'
  }

  function Digits(s: string): (n: nat)
    ensures n <= |s|
  {
    if s != "" && IsDigit(s[0]) then 1 + Digits(s[1..]) else 0
  }

  /** \d+\.\d+\.\d+ and nothing else: `more` further numbers are expected after this one. */
  predicate IsVersion(s: string, more: nat) {
    var n := Digits(s);
    && n > 0
    && if more == 0 then n == |s| else n < |s| && s[n] == '.' && IsVersion(s[n + 1..], more - 1)
  }

  function VersionRun(s: string): (n: nat)
    ensures n <= |s|
  {
    if s != "" && (IsDigit(s[0]) || s[0] == '.') then 1 + VersionRun(s[1..]) else 0
  }

  /** [1.2.3](anything) at the start of the heading text. */
  function LegacyVersion(s: string): Option<string> {
    if s == "" || s[0] != '[' then None
    else
      var n := VersionRun(s[1..]);
      var rest := s[1 + n..];
      if IsVersion(s[1..1 + n], 2) && StartsWith(rest, "](") && ')' in rest then Some(s[1..1 + n]) else None
  }

  /** The version a heading line opens a section for. */
  function Heading(line: string): Option<string> {
    if !StartsWith(line, "##") || |line| == 2 || !IsSpace(line[2]) then None
    else
      var body := StripLeft(line[2..]);
      if IsVersion(StripRight(body), 2) then Some(StripRight(body)) else LegacyVersion(body)
  }

  const BUCKETS: seq<string> := ["patch changes", "minor changes", "major changes", "bug fixes", "features",
                                 "performance improvements"]

  predicate IsBucket(line: string) {
    StartsWith(line, "###") && |line| > 3 && IsSpace(line[3]) && Lower(Strip(line[3..])) in BUCKETS
  }

  predicate IsBullet(line: string) {
    |line| > 1 && line[0] == '-' && IsSpace(line[1])
  }

  /** At least two white-space characters and then something. */
  predicate IsContinuation(line: string) {
    |line| > 2 && IsSpace(line[0]) && IsSpace(line[1]) && Strip(line) != ""
  }

  // ---------------------------------------------------------------- the scanner

  datatype Section = Section(version: string, bullets: seq<string>)

  /** The sections so far, the last one being current, and the lines of the open bullet. */
  datatype State = State(sections: seq<Section>, open: Option<seq<string>>)

  /** re.sub(r"\n{3,}", "\n\n", s) */
  function SqueezeBlank(s: string): string {
    if s == "" then ""
    else if |s| > 2 && s[0] == NEWLINE && s[1] == NEWLINE && s[2] == NEWLINE then SqueezeBlank(s[1..])
    else [s[0]] + SqueezeBlank(s[1..])
  }

  function BulletText(lines: seq<string>): string {
    Strip(StripRight(SqueezeBlank(JoinLines(lines))))
  }

  function AddBullet(sections: seq<Section>, text: string): seq<Section>
    requires sections != []
  {
    var n := |sections| - 1;
    sections[n := sections[n].(bullets := sections[n].bullets + [text])]
  }

  function Flush(s: State): State {
    if s.sections == [] || s.open.None? then s
    else
      var text := BulletText(s.open.value);
      State(if text == "" then s.sections else AddBullet(s.sections, text), None)
  }

  function Step(s: State, line: string, t: Transform): State {
    var version := Heading(line);
    if version.Some? then State(Flush(s).sections + [Section(version.value, [])], None)
    else if s.sections == [] then s
    else if IsBucket(Strip(line)) then Flush(s)
    else if IsBullet(line) then Flush(s).(open := Some([t(StripLeft(line[1..]))]))
    else if s.open.Some? then
      if Strip(line) == "" then s.(open := Some(s.open.value + [""]))
      else if IsContinuation(line) then s.(open := Some(s.open.value + [t(Strip(line))]))
      else Flush(s)
    else s
  }

  function Scan(s: State, lines: seq<string>, t: Transform): State
    decreases |lines|
  {
    if lines == [] then s else Scan(Step(s, lines[0], t), lines[1..], t)
  }

  const START: State := State([], None)

  /** parse_changelog_text */
  function Parse(text: string, t: Transform): seq<Section> {
    if text == "" then [] else Flush(Scan(START, SplitLines(text), t)).sections
  }

  method ParseChangelogText(text: string, t: Transform) returns (sections: seq<Section>)
    ensures sections == Parse(text, t)
  {
    if text == "" {
      return [];
    }
    var lines := SplitLines(text);
    var s := START;
    for k := 0 to |lines|
      invariant Scan(START, lines, t) == Scan(s, lines[k..], t)
    {
      assert lines[k..][1..] == lines[k + 1..];
      s := Step(s, lines[k], t);
    }
    return Flush(s).sections;
  }

  predicate HasHeading(text: string) {
    exists k :: 0 <= k < |SplitLines(text)| && Heading(SplitLines(text)[k]).Some?
  }

  function Wrapped(text: string, version: string): string {
    "## " + version + "\n\n" + text + "\n"
  }

  function FromSections(sections: seq<Section>, version: string): Option<Section> {
    if sections == [] || sections[0].bullets == [] then None else Some(Section(version, sections[0].bullets))
  }

  /** _strip_leading_v: the version that a release tag names. */
  function WithoutV(tag: string): string {
    var text := Strip(tag);
    if text != "" && (text[0] == 'v' || text[0] == 'V') then text[1..] else text
  }

  /** parse_release_body: the body of one release, with headings or without. */
  function ReleaseBody(body: string, tag: string, t: Transform): Option<Section> {
    var text, version := Strip(body), WithoutV(tag);
    if text == "" || version == "" then None
    else if HasHeading(text) then FindSection(Parse(text, t), version)
    else FromSections(Parse(Wrapped(text, version), t), version)
  }

  function FindSection(sections: seq<Section>, version: string): Option<Section> {
    if sections == [] then None
    else if sections[0].version == version && sections[0].bullets != [] then Some(sections[0])
    else FindSection(sections[1..], version)
  }

  // ---------------------------------------------------------------- the printer

  /** A section with its bullets line by line. */
  datatype Draft = Draft(version: string, bullets: seq<seq<string>>)

  function BulletLines(lines: seq<string>): seq<string>
    requires lines != []
  {
    ["- " + lines[0]] + Indented(lines[1..])
  }

  function Indented(lines: seq<string>): (r: seq<string>)
    ensures |r| == |lines|
    ensures forall i :: 0 <= i < |r| ==> r[i] == if lines[i] == "" then "" else "  " + lines[i]
  {
    seq(|lines|, i requires 0 <= i < |lines| => if lines[i] == "" then "" else "  " + lines[i])
  }

  predicate NonEmptyBullets(bullets: seq<seq<string>>) {
    forall i :: 0 <= i < |bullets| ==> bullets[i] != []
  }

  function AllBulletLines(bullets: seq<seq<string>>): seq<string>
    requires NonEmptyBullets(bullets)
  {
    if bullets == [] then [] else BulletLines(bullets[0]) + AllBulletLines(bullets[1..])
  }

  function SectionLines(d: Draft): seq<string>
    requires NonEmptyBullets(d.bullets)
  {
    ["## " + d.version, ""] + AllBulletLines(d.bullets) + [""]
  }

  /** A line that the reader takes for one line of a bullet. */
  predicate PrintedLine(line: string) {
    NEWLINE !in line && Strip(line) == line && !IsBucket(line)
  }

  /** What the reader makes of it: blank lines are not rewritten. */
  function Rewritten(line: string, t: Transform): string {
    if line == "" then "" else t(line)
  }

  function RewrittenLines(lines: seq<string>, t: Transform): (r: seq<string>)
    ensures |r| == |lines| && forall i :: 0 <= i < |r| ==> r[i] == Rewritten(lines[i], t)
  {
    seq(|lines|, i requires 0 <= i < |lines| => Rewritten(lines[i], t))
  }

  /** No two blank lines follow each other. */
  predicate NoDoubleBlank(lines: seq<string>) {
    forall i :: 0 <= i < |lines| - 1 ==> lines[i] != "" || lines[i + 1] != ""
  }

  predicate NoNewlines(lines: seq<string>) {
    forall i :: 0 <= i < |lines| ==> NEWLINE !in lines[i]
  }

  /** Text with something else than white space at both ends. */
  predicate Trimmed(s: string) {
    s != "" && !IsSpace(s[0]) && !IsSpace(s[|s| - 1])
  }

  /** The lines of a bullet as published: text at both ends, no two blank lines in a row. */
  predicate NormalText(lines: seq<string>) {
    && lines != [] && Trimmed(lines[0]) && Trimmed(lines[|lines| - 1])
    && NoNewlines(lines) && NoDoubleBlank(lines)
  }

  predicate AllPrinted(lines: seq<string>) {
    forall i :: 0 <= i < |lines| ==> PrintedLine(lines[i])
  }

  /** A bullet in normal form. */
  predicate NormalBullet(lines: seq<string>, t: Transform) {
    AllPrinted(lines) && NormalText(RewrittenLines(lines, t))
  }

  predicate NormalDraft(d: Draft, t: Transform) {
    && IsVersion(d.version, 2)
    && forall i :: 0 <= i < |d.bullets| ==> NormalBullet(d.bullets[i], t)
  }

  function RewrittenBullets(bullets: seq<seq<string>>, t: Transform): (r: seq<seq<string>>)
    ensures |r| == |bullets| && forall i :: 0 <= i < |r| ==> r[i] == RewrittenLines(bullets[i], t)
  {
    seq(|bullets|, i requires 0 <= i < |bullets| => RewrittenLines(bullets[i], t))
  }

  function Texts(bullets: seq<seq<string>>): (texts: seq<string>)
    ensures |texts| == |bullets| && forall i :: 0 <= i < |texts| ==> texts[i] == JoinLines(bullets[i])
  {
    seq(|bullets|, i requires 0 <= i < |bullets| => JoinLines(bullets[i]))
  }

  function Published(d: Draft, t: Transform): Section {
    Section(d.version, Texts(RewrittenBullets(d.bullets, t)))
  }

  // ---------------------------------------------------------------- text of a bullet

  lemma {:induction false} SqueezeFront(front: string, s: string)
    requires NEWLINE !in front
    ensures SqueezeBlank(front + s) == front + SqueezeBlank(s)
  {
    if front == "" {
      assert front + s == s;
    } else {
      var t := front + s;
      assert t[0] in front && t[1..] == front[1..] + s;
      assert forall c :: c in front[1..] ==> c in front;
      SqueezeFront(front[1..], s);
      assert front == [front[0]] + front[1..];
    }
  }

  lemma FirstChar(lines: seq<string>)
    requires lines != [] && NoNewlines(lines)
    ensures var s := JoinLines(lines);
            s != "" && s[0] == NEWLINE <==> lines[0] == "" && |lines| > 1
  {
    var s := JoinLines(lines);
    if lines[0] != "" {
      assert s[0] == lines[0][0];
      assert lines[0][0] in lines[0];
    }
  }

  lemma {:induction false} SqueezeNothing(lines: seq<string>)
    requires lines != [] && NoNewlines(lines) && NoDoubleBlank(lines)
    ensures SqueezeBlank(JoinLines(lines)) == JoinLines(lines)
  {
    var first, rest := lines[0], lines[1..];
    if |lines| == 1 {
      SqueezeFront(first, "");
      assert first + "" == first;
    } else {
      var s := JoinLines(rest);
      SqueezeNothing(rest);
      SqueezeFront(first, [NEWLINE] + s);
      assert first + [NEWLINE] + s == first + ([NEWLINE] + s);
      FirstChar(rest);
      if |rest| > 1 && rest[0] == "" {
        assert s == [NEWLINE] + JoinLines(rest[1..]);
        FirstChar(rest[1..]);
        assert lines[1] == rest[0] && lines[2] == rest[1];
      }
      assert ([NEWLINE] + s)[1..] == s;
    }
  }

  lemma {:induction false} StripLength(s: string)
    ensures |Strip(s)| <= |s|
    decreases |s|
  {
    if s != "" && IsSpace(s[0]) {
      StripLength(s[1..]);
    } else if s != "" && IsSpace(s[|s| - 1]) {
      StripLength(s[..|s| - 1]);
    }
  }

  lemma StrippedIsTrimmed(s: string)
    requires s != "" && Strip(s) == s
    ensures Trimmed(s)
  {
    if IsSpace(s[0]) {
      StripLength(s[1..]);
    } else if IsSpace(s[|s| - 1]) {
      StripLength(s[..|s| - 1]);
    }
  }

  lemma {:induction false} JoinedEnds(lines: seq<string>)
    requires lines != [] && lines[|lines| - 1] != ""
    ensures var s := JoinLines(lines);
            s != "" && s[|s| - 1] == lines[|lines| - 1][|lines[|lines| - 1]| - 1]
  {
    if |lines| > 1 {
      JoinedEnds(lines[1..]);
    }
  }

  lemma JoinedStart(lines: seq<string>)
    requires lines != [] && lines[0] != ""
    ensures JoinLines(lines) != "" && JoinLines(lines)[0] == lines[0][0]
  {
  }

  lemma {:induction false} JoinBlank(lines: seq<string>)
    requires lines != []
    ensures JoinLines(lines + [""]) == JoinLines(lines) + [NEWLINE]
  {
    var more := lines + [""];
    assert more[1..] == lines[1..] + [""];
    if |lines| == 1 {
      assert more[1..] == [""];
    } else {
      JoinBlank(lines[1..]);
    }
  }

  lemma TrimmedText(s: string)
    requires Trimmed(s)
    ensures Strip(StripRight(s)) == s && Strip(StripRight(s + [NEWLINE])) == s
  {
    var more := s + [NEWLINE];
    assert more[..|more| - 1] == s;
    assert StripRight(s) == s && StripRight(more) == s;
  }

  /** A bullet in normal form is published as it is, also with a blank line behind it. */
  lemma BulletKept(lines: seq<string>)
    requires NormalText(lines)
    ensures BulletText(lines) == JoinLines(lines) && BulletText(lines + [""]) == JoinLines(lines)
    ensures Trimmed(JoinLines(lines))
  {
    JoinedEnds(lines);
    JoinedStart(lines);
    SqueezeNothing(lines);
    SqueezeNothing(lines + [""]);
    JoinBlank(lines);
    TrimmedText(JoinLines(lines));
  }

  // ---------------------------------------------------------------- scanning what was printed

  lemma {:induction false} ScanInTurn(s: State, first: seq<string>, second: seq<string>, t: Transform)
    ensures Scan(s, first + second, t) == Scan(Scan(s, first, t), second, t)
    decreases |first|
  {
    if first == [] {
      assert first + second == second;
    } else {
      assert (first + second)[1..] == first[1..] + second;
      ScanInTurn(Step(s, first[0], t), first[1..], second, t);
    }
  }

  lemma FirstNotHash(line: string)
    requires line == "" || line[0] != '#'
    ensures Heading(line).None? && !IsBucket(line)
  {
  }

  lemma StripIndent(line: string)
    requires line != "" && Strip(line) == line
    ensures Strip("  " + line) == line && StripLeft(" " + line) == line
  {
    StrippedIsTrimmed(line);
    var s := "  " + line;
    assert s[1..] == " " + line && s[1..][1..] == line;
    assert (" " + line)[1..] == line;
  }

  /** The first line of a bullet opens it. */
  lemma StepBullet(s: State, line: string, t: Transform)
    requires s.sections != [] && PrintedLine(line) && line != ""
    ensures Step(s, "- " + line, t) == Flush(s).(open := Some([t(line)]))
  {
    var printed := "- " + line;
    StripIndent(line);
    StrippedIsTrimmed(line);
    assert Strip(printed) == printed;
    FirstNotHash(printed);
    assert printed[1..] == " " + line;
  }

  function Indent(line: string): string {
    if line == "" then "" else "  " + line
  }

  /** Every further line continues it. */
  lemma StepContinuation(s: State, line: string, t: Transform)
    requires s.sections != [] && s.open.Some? && PrintedLine(line)
    ensures Step(s, Indent(line), t) == s.(open := Some(s.open.value + [Rewritten(line, t)]))
  {
    if line == "" {
      FirstNotHash("");
    } else {
      var printed := "  " + line;
      StripIndent(line);
      FirstNotHash(printed);
      assert printed[0] == ' ' && printed[1] == ' ';
    }
  }

  lemma ScanContinuation(s: State, line: string, rest: seq<string>, t: Transform)
    requires s.sections != [] && s.open.Some? && PrintedLine(line)
    ensures Scan(s, [Indent(line)] + rest, t)
         == Scan(s.(open := Some(s.open.value + [Rewritten(line, t)])), rest, t)
  {
    StepContinuation(s, line, t);
    assert ([Indent(line)] + rest)[1..] == rest;
  }

  lemma IndentedFirst(lines: seq<string>, t: Transform)
    requires lines != []
    ensures Indented(lines) == [Indent(lines[0])] + Indented(lines[1..])
    ensures RewrittenLines(lines, t) == [Rewritten(lines[0], t)] + RewrittenLines(lines[1..], t)
  {
  }

  lemma {:induction false} ScanIndented(s: State, lines: seq<string>, t: Transform)
    requires s.sections != [] && s.open.Some? && AllPrinted(lines)
    ensures Scan(s, Indented(lines), t) == s.(open := Some(s.open.value + RewrittenLines(lines, t)))
    decreases |lines|
  {
    if lines == [] {
      assert s.open.value + [] == s.open.value;
    } else {
      var first := Rewritten(lines[0], t);
      var next := s.(open := Some(s.open.value + [first]));
      var rest, after := Indented(lines[1..]), RewrittenLines(lines[1..], t);
      calc {
        Scan(s, Indented(lines), t);
      == { IndentedFirst(lines, t); }
        Scan(s, [Indent(lines[0])] + rest, t);
      == { ScanContinuation(s, lines[0], rest, t); }
        Scan(next, rest, t);
      == { ScanIndented(next, lines[1..], t); }
        next.(open := Some(next.open.value + after));
      == { assert s.open.value + [first] + after == s.open.value + ([first] + after); IndentedFirst(lines, t); }
        s.(open := Some(s.open.value + RewrittenLines(lines, t)));
      }
    }
  }

  lemma ScanBullet(s: State, lines: seq<string>, t: Transform)
    requires s.sections != [] && NormalBullet(lines, t)
    ensures Scan(s, BulletLines(lines), t) == Flush(s).(open := Some(RewrittenLines(lines, t)))
  {
    assert RewrittenLines(lines, t)[0] == Rewritten(lines[0], t);
    StepBullet(s, lines[0], t);
    assert BulletLines(lines)[1..] == Indented(lines[1..]);
    ScanIndented(Flush(s).(open := Some([t(lines[0])])), lines[1..], t);
    IndentedFirst(lines, t);
  }

  predicate NormalBullets(bullets: seq<seq<string>>, t: Transform) {
    forall i :: 0 <= i < |bullets| ==> NormalBullet(bullets[i], t)
  }

  predicate NormalTexts(bullets: seq<seq<string>>) {
    forall i :: 0 <= i < |bullets| ==> NormalText(bullets[i])
  }

  function WithBullets(sections: seq<Section>, texts: seq<string>): seq<Section>
    requires sections != []
  {
    var n := |sections| - 1;
    sections[n := sections[n].(bullets := sections[n].bullets + texts)]
  }

  lemma NoBullets(sections: seq<Section>)
    requires sections != []
    ensures WithBullets(sections, []) == sections
  {
    var n := |sections| - 1;
    assert sections[n].bullets + [] == sections[n].bullets;
  }

  /** The state after the bullets of a section, the last of them still open. */
  function Opened(s: State, bullets: seq<seq<string>>): State
    decreases |bullets|
  {
    if bullets == [] then s else Opened(Flush(s).(open := Some(bullets[0])), bullets[1..])
  }

  lemma {:induction false} ScanBullets(s: State, bullets: seq<seq<string>>, t: Transform)
    requires s.sections != [] && NormalBullets(bullets, t)
    ensures Scan(s, AllBulletLines(bullets), t) == Opened(s, RewrittenBullets(bullets, t))
    decreases |bullets|
  {
    if bullets != [] {
      ScanBullet(s, bullets[0], t);
      ScanInTurn(s, BulletLines(bullets[0]), AllBulletLines(bullets[1..]), t);
      ScanBullets(Flush(s).(open := Some(RewrittenLines(bullets[0], t))), bullets[1..], t);
      assert RewrittenBullets(bullets, t)[1..] == RewrittenBullets(bullets[1..], t);
    }
  }

  lemma {:induction false} OpenedLast(s: State, bullets: seq<seq<string>>)
    requires s.sections != []
    ensures Opened(s, bullets).sections != []
    ensures bullets != [] ==> Opened(s, bullets).open == Some(bullets[|bullets| - 1])
    decreases |bullets|
  {
    if bullets != [] {
      OpenedLast(Flush(s).(open := Some(bullets[0])), bullets[1..]);
    }
  }

  lemma FlushOpen(sections: seq<Section>, lines: seq<string>)
    requires sections != [] && NormalText(lines)
    ensures Flush(State(sections, Some(lines))) == State(AddBullet(sections, JoinLines(lines)), None)
    ensures Flush(State(sections, Some(lines + [""]))) == State(AddBullet(sections, JoinLines(lines)), None)
  {
    BulletKept(lines);
  }

  /** Closing the last bullet publishes all of them, in order. */
  lemma {:induction false} OpenedPublishes(s: State, bullets: seq<seq<string>>)
    requires s.sections != [] && NormalTexts(bullets)
    ensures Flush(Opened(s, bullets)) == State(WithBullets(Flush(s).sections, Texts(bullets)), None)
    decreases |bullets|
  {
    if bullets == [] {
      NoBullets(Flush(s).sections);
    } else {
      var sections, first, rest := Flush(s).sections, bullets[0], bullets[1..];
      FlushOpen(sections, first);
      OpenedPublishes(State(sections, Some(first)), rest);
      assert Texts(bullets) == [JoinLines(first)] + Texts(rest);
      BulletsInTurn(sections, JoinLines(first), Texts(rest));
    }
  }

  lemma BulletsInTurn(sections: seq<Section>, text: string, texts: seq<string>)
    requires sections != []
    ensures WithBullets(AddBullet(sections, text), texts) == WithBullets(sections, [text] + texts)
  {
    var n := |sections| - 1;
    assert sections[n].bullets + [text] + texts == sections[n].bullets + ([text] + texts);
  }

  // ---------------------------------------------------------------- headings

  lemma {:induction false} VersionEnds(v: string, more: nat)
    requires IsVersion(v, more)
    ensures v != "" && IsDigit(v[0]) && IsDigit(v[|v| - 1])
    decreases more
  {
    var n := Digits(v);
    DigitsAre(v);
    if more > 0 {
      VersionEnds(v[n + 1..], more - 1);
    }
  }

  lemma {:induction false} DigitsAre(s: string)
    ensures forall i :: 0 <= i < Digits(s) ==> IsDigit(s[i])
  {
    if s != "" && IsDigit(s[0]) {
      DigitsAre(s[1..]);
    }
  }

  lemma PrintedHeading(version: string)
    requires IsVersion(version, 2)
    ensures Heading("## " + version) == Some(version)
  {
    VersionEnds(version, 2);
    TrimmedBody(version);
    var line := "## " + version;
    assert line[..2] == "##" && line[2] == ' ' && line[2..] == " " + version;
  }

  lemma TrimmedBody(s: string)
    requires Trimmed(s)
    ensures StripLeft(" " + s) == s && StripRight(s) == s
  {
    assert (" " + s)[1..] == s;
  }

  // ---------------------------------------------------------------- sections

  /** The state with which the scanner leaves a printed section is published by the next flush. */
  lemma ScanSection(s: State, d: Draft, t: Transform)
    requires NormalDraft(d, t)
    ensures Flush(Scan(s, SectionLines(d), t)) == State(Flush(s).sections + [Published(d, t)], None)
  {
    var sections := Flush(s).sections + [Section(d.version, [])];
    var begun, bullets := State(sections, None), RewrittenBullets(d.bullets, t);
    ScanHeading(s, d.version, t);
    ScanInTurn(s, ["## " + d.version, ""] + AllBulletLines(d.bullets), [""], t);
    ScanInTurn(s, ["## " + d.version, ""], AllBulletLines(d.bullets), t);
    ScanBullets(begun, d.bullets, t);
    var reached := Opened(begun, bullets);
    OpenedLast(begun, bullets);
    OpenedPublishes(begun, bullets);
    BlankLine(reached, t);
    if bullets != [] {
      FlushOpen(reached.sections, bullets[|bullets| - 1]);
    }
    PublishedSection(Flush(s).sections, d, t);
  }

  lemma PublishedSection(sections: seq<Section>, d: Draft, t: Transform)
    ensures WithBullets(sections + [Section(d.version, [])], Texts(RewrittenBullets(d.bullets, t)))
         == sections + [Published(d, t)]
  {
    var texts := Texts(RewrittenBullets(d.bullets, t));
    assert [] + texts == texts;
  }

  lemma BlankLine(s: State, t: Transform)
    requires s.sections != []
    ensures Scan(s, [""], t) == if s.open.Some? then s.(open := Some(s.open.value + [""])) else s
  {
    FirstNotHash("");
    assert [""][1..] == [];
  }

  lemma ScanHeading(s: State, version: string, t: Transform)
    requires IsVersion(version, 2)
    ensures Scan(s, ["## " + version, ""], t) == State(Flush(s).sections + [Section(version, [])], None)
  {
    var begun := State(Flush(s).sections + [Section(version, [])], None);
    PrintedHeading(version);
    assert ["## " + version, ""][1..] == [""];
    BlankLine(begun, t);
  }

  predicate NormalDrafts(drafts: seq<Draft>, t: Transform) {
    forall i :: 0 <= i < |drafts| ==> NormalDraft(drafts[i], t)
  }

  function AllSectionLines(drafts: seq<Draft>): seq<string>
    requires forall i :: 0 <= i < |drafts| ==> NonEmptyBullets(drafts[i].bullets)
  {
    if drafts == [] then [] else SectionLines(drafts[0]) + AllSectionLines(drafts[1..])
  }

  function AllPublished(drafts: seq<Draft>, t: Transform): (sections: seq<Section>)
    ensures |sections| == |drafts| && forall i :: 0 <= i < |drafts| ==> sections[i] == Published(drafts[i], t)
  {
    seq(|drafts|, i requires 0 <= i < |drafts| => Published(drafts[i], t))
  }

  lemma PublishedInTurn(sections: seq<Section>, drafts: seq<Draft>, t: Transform)
    requires drafts != []
    ensures sections + [Published(drafts[0], t)] + AllPublished(drafts[1..], t) == sections + AllPublished(drafts, t)
  {
  }

  lemma {:induction false} ScanSections(s: State, drafts: seq<Draft>, t: Transform)
    requires NormalDrafts(drafts, t)
    ensures Flush(Scan(s, AllSectionLines(drafts), t)).sections == Flush(s).sections + AllPublished(drafts, t)
    decreases |drafts|
  {
    if drafts == [] {
      assert Flush(s).sections + [] == Flush(s).sections;
    } else {
      var first, rest := SectionLines(drafts[0]), AllSectionLines(drafts[1..]);
      var next := Scan(s, first, t);
      calc {
        Flush(Scan(s, AllSectionLines(drafts), t)).sections;
      == { assert AllSectionLines(drafts) == first + rest; ScanInTurn(s, first, rest, t); }
        Flush(Scan(next, rest, t)).sections;
      == { ScanSections(next, drafts[1..], t); }
        Flush(next).sections + AllPublished(drafts[1..], t);
      == { ScanSection(s, drafts[0], t); }
        Flush(s).sections + [Published(drafts[0], t)] + AllPublished(drafts[1..], t);
      == { PublishedInTurn(Flush(s).sections, drafts, t); }
        Flush(s).sections + AllPublished(drafts, t);
      }
    }
  }

  // ---------------------------------------------------------------- the text

  lemma {:induction false} SplitFrontLine(line: string, rest: string)
    requires NEWLINE !in line
    ensures SplitLines(line + [NEWLINE] + rest) == [line] + SplitLines(rest)
    ensures SplitLines(line) == [line]
  {
    var s := line + [NEWLINE] + rest;
    if line == "" {
      assert s[1..] == rest;
    } else {
      assert line[0] in line && forall c :: c in line[1..] ==> c in line;
      assert s[1..] == line[1..] + [NEWLINE] + rest;
      SplitFrontLine(line[1..], rest);
      assert [line[0]] + line[1..] == line;
    }
  }

  lemma {:induction false} SplitJoinLines(lines: seq<string>)
    requires lines != [] && NoNewlines(lines)
    ensures SplitLines(JoinLines(lines)) == lines
  {
    SplitFrontLine(lines[0], JoinLines(lines[1..]));
    if |lines| > 1 {
      SplitJoinLines(lines[1..]);
    }
  }

  lemma {:induction false} BulletsHaveNoNewlines(bullets: seq<seq<string>>, t: Transform)
    requires NormalBullets(bullets, t)
    ensures NoNewlines(AllBulletLines(bullets))
  {
    if bullets != [] {
      BulletsHaveNoNewlines(bullets[1..], t);
      var lines := bullets[0];
      assert forall i :: 0 <= i < |lines| ==> PrintedLine(lines[i]);
      assert NoNewlines(BulletLines(lines));
    }
  }

  lemma VersionHasNoNewline(v: string, more: nat)
    requires IsVersion(v, more)
    ensures NEWLINE !in v
    decreases more
  {
    DigitsAre(v);
    if more > 0 {
      var n := Digits(v);
      VersionHasNoNewline(v[n + 1..], more - 1);
      forall i | 0 <= i < |v| ensures v[i] != NEWLINE {
        if i > n {
          assert v[i] == v[n + 1..][i - n - 1];
        }
      }
    }
  }

  lemma SectionHasNoNewlines(d: Draft, t: Transform)
    requires NormalDraft(d, t)
    ensures NoNewlines(SectionLines(d))
  {
    BulletsHaveNoNewlines(d.bullets, t);
    VersionHasNoNewline(d.version, 2);
  }

  lemma {:induction false} SectionsHaveNoNewlines(drafts: seq<Draft>, t: Transform)
    requires NormalDrafts(drafts, t)
    ensures NoNewlines(AllSectionLines(drafts))
  {
    if drafts != [] {
      SectionsHaveNoNewlines(drafts[1..], t);
      SectionHasNoNewlines(drafts[0], t);
    }
  }

  /**
   Reading a printed changelog gives the same versions, and the same bullets in the same order with
   every line rewritten, for every number of sections and bullets in normal form and for every line
   transform.
   */
  lemma ParseRewritesPrint(drafts: seq<Draft>, t: Transform)
    requires NormalDrafts(drafts, t)
    ensures Parse(JoinLines(AllSectionLines(drafts)), t) == AllPublished(drafts, t)
  {
    if drafts != [] {
      var lines := AllSectionLines(drafts);
      SectionsHaveNoNewlines(drafts, t);
      assert lines[0] == "## " + drafts[0].version;
      assert JoinLines(lines) != "" by {
        assert JoinLines(lines)[..|lines[0]|] == lines[0] || |lines| == 1;
      }
      SplitJoinLines(lines);
      ScanSections(START, drafts, t);
      assert [] + AllPublished(drafts, t) == AllPublished(drafts, t);
    }
  }

  predicate AllFixed(bullets: seq<seq<string>>, t: Transform) {
    forall i, j :: 0 <= i < |bullets| && 0 <= j < |bullets[i]| ==> t(bullets[i][j]) == bullets[i][j]
  }

  lemma FixedText(d: Draft, t: Transform)
    requires AllFixed(d.bullets, t)
    ensures Published(d, t) == Section(d.version, Texts(d.bullets))
  {
    forall i | 0 <= i < |d.bullets| ensures RewrittenLines(d.bullets[i], t) == d.bullets[i] {
      assert forall j :: 0 <= j < |d.bullets[i]| ==> t(d.bullets[i][j]) == d.bullets[i][j];
    }
    assert RewrittenBullets(d.bullets, t) == d.bullets;
  }

  /** With lines that the transform leaves alone the very same sections come back. */
  lemma ParseUndoesPrint(drafts: seq<Draft>, t: Transform)
    requires NormalDrafts(drafts, t) && forall i :: 0 <= i < |drafts| ==> AllFixed(drafts[i].bullets, t)
    ensures var sections := Parse(JoinLines(AllSectionLines(drafts)), t);
            && |sections| == |drafts|
            && forall i :: 0 <= i < |drafts| ==> sections[i] == Section(drafts[i].version, Texts(drafts[i].bullets))
  {
    ParseRewritesPrint(drafts, t);
    forall i | 0 <= i < |drafts|
      ensures Published(drafts[i], t) == Section(drafts[i].version, Texts(drafts[i].bullets))
    {
      FixedText(drafts[i], t);
    }
  }

  // ---------------------------------------------------------------- a release body

  lemma {:induction false} BulletLinesOpenNoSection(bullets: seq<seq<string>>, k: nat)
    requires NonEmptyBullets(bullets) && k < |AllBulletLines(bullets)|
    ensures Heading(AllBulletLines(bullets)[k]).None?
  {
    var first := BulletLines(bullets[0]);
    if k < |first| {
      FirstNotHash(first[k]);
    } else {
      BulletLinesOpenNoSection(bullets[1..], k - |first|);
    }
  }

  lemma {:induction false} JoinInTurn(first: seq<string>, second: seq<string>)
    requires first != [] && second != []
    ensures JoinLines(first + second) == JoinLines(first) + [NEWLINE] + JoinLines(second)
  {
    var all := first + second;
    assert all[1..] == first[1..] + second;
    if |first| > 1 {
      JoinInTurn(first[1..], second);
    } else {
      assert all[1..] == second;
    }
  }

  /** Lines that begin with a dash and end in text. */
  predicate DashToText(lines: seq<string>) {
    && lines != [] && lines[0] != "" && lines[0][0] == '-'
    && EndsInText(lines[|lines| - 1])
  }

  predicate EndsInText(line: string) {
    line != "" && !IsSpace(line[|line| - 1])
  }

  lemma BulletLinesEnd(lines: seq<string>)
    requires lines != [] && EndsInText(lines[|lines| - 1])
    ensures DashToText(BulletLines(lines))
  {
    var printed, n := BulletLines(lines), |lines| - 1;
    assert printed[0] == "- " + lines[0];
    if n > 0 {
      assert printed[n] == Indented(lines[1..])[n - 1] == "  " + lines[n];
    }
  }

  lemma BulletLineEnds(lines: seq<string>, t: Transform)
    requires NormalBullet(lines, t)
    ensures DashToText(BulletLines(lines))
  {
    var n := |lines| - 1;
    assert RewrittenLines(lines, t)[n] == Rewritten(lines[n], t);
    assert PrintedLine(lines[n]);
    StrippedIsTrimmed(lines[n]);
    BulletLinesEnd(lines);
  }

  lemma DashToTextInTurn(first: seq<string>, second: seq<string>)
    requires DashToText(first) && (second == [] || DashToText(second))
    ensures DashToText(first + second)
  {
    var all := first + second;
    assert all[|all| - 1] == if second == [] then first[|first| - 1] else second[|second| - 1];
  }

  lemma {:induction false} LastBulletLine(bullets: seq<seq<string>>, t: Transform)
    requires bullets != [] && NormalBullets(bullets, t)
    ensures DashToText(AllBulletLines(bullets))
  {
    BulletLineEnds(bullets[0], t);
    if |bullets| > 1 {
      LastBulletLine(bullets[1..], t);
    }
    DashToTextInTurn(BulletLines(bullets[0]), AllBulletLines(bullets[1..]));
  }

  lemma TrimmedStrip(s: string)
    requires Trimmed(s)
    ensures Strip(s) == s
  {
  }

  lemma BulletsTrimmed(bullets: seq<seq<string>>, t: Transform)
    requires NormalBullets(bullets, t) && bullets != []
    ensures AllBulletLines(bullets) != [] && Trimmed(JoinLines(AllBulletLines(bullets)))
  {
    LastBulletLine(bullets, t);
    EndsTrimmed(AllBulletLines(bullets));
  }

  lemma EndsTrimmed(lines: seq<string>)
    requires DashToText(lines)
    ensures Trimmed(JoinLines(lines))
  {
    JoinedEnds(lines);
    JoinedStart(lines);
  }

  /** No line of printed bullets is a heading. */
  lemma BulletsHaveNoHeading(bullets: seq<seq<string>>, t: Transform)
    requires NormalBullets(bullets, t) && bullets != []
    ensures !HasHeading(JoinLines(AllBulletLines(bullets)))
  {
    var lines := AllBulletLines(bullets);
    BulletsTrimmed(bullets, t);
    BulletsHaveNoNewlines(bullets, t);
    SplitJoinLines(lines);
    forall k | 0 <= k < |lines| ensures Heading(lines[k]).None? {
      BulletLinesOpenNoSection(bullets, k);
    }
  }

  /** A release body that consists of printed bullets without a heading is read back the same. */
  lemma ReleaseBodyUndoesPrint(d: Draft, tag: string, t: Transform)
    requires NormalDraft(d, t) && d.bullets != [] && (tag == d.version || tag == "v" + d.version)
    ensures ReleaseBody(JoinLines(AllBulletLines(d.bullets)), tag, t) == Some(Published(d, t))
  {
    TagOfVersion(d.version);
    var text := JoinLines(AllBulletLines(d.bullets));
    BulletsTrimmed(d.bullets, t);
    TrimmedStrip(text);
    BulletsHaveNoHeading(d.bullets, t);
    VersionEnds(d.version, 2);
    WrappedBody(d);
    PrintedOne(d, t);
    assert FromSections([Published(d, t)], d.version) == Some(Published(d, t));
  }

  /** A version, with a leading v or without, is read from its tag. */
  lemma TagOfVersion(version: string)
    requires IsVersion(version, 2)
    ensures WithoutV(version) == version && WithoutV("v" + version) == version
  {
    VersionEnds(version, 2);
    TrimmedStrip(version);
    var tag := "v" + version;
    assert tag[0] == 'v' && tag[|tag| - 1] == version[|version| - 1];
    TrimmedStrip(tag);
    assert tag[1..] == version;
  }

  /** The wrapper around a body without heading is the printed section. */
  lemma WrappedBody(d: Draft)
    requires NonEmptyBullets(d.bullets) && AllBulletLines(d.bullets) != []
    ensures Wrapped(JoinLines(AllBulletLines(d.bullets)), d.version) == JoinLines(SectionLines(d))
  {
    var lines := AllBulletLines(d.bullets);
    var head := ["## " + d.version, ""];
    JoinInTurn(head, lines);
    JoinInTurn(head + lines, [""]);
    assert head[1..] == [""];
    assert JoinLines(head) == "## " + d.version + "\n" + "";
    assert "## " + d.version + "\n" + "" + "\n" + JoinLines(lines) + "\n" + ""
        == "## " + d.version + "\n\n" + JoinLines(lines) + "\n";
  }

  lemma PrintedOne(d: Draft, t: Transform)
    requires NormalDraft(d, t)
    ensures Parse(JoinLines(SectionLines(d)), t) == [Published(d, t)]
  {
    var one := [d];
    assert NormalDrafts(one, t);
    ParseRewritesPrint(one, t);
    assert one[1..] == [] && AllSectionLines(one[1..]) == [];
    assert AllSectionLines(one) == SectionLines(d);
    assert AllPublished(one, t) == [Published(d, t)];
  }

  // ---------------------------------------------------------------- every text, line by line

  /** A line that belongs to the bullet above it. */
  predicate Continues(line: string) {
    && Heading(line).None? && !IsBucket(Strip(line)) && !IsBullet(line)
    && (Strip(line) == "" || IsContinuation(line))
  }

  /** The lines from the first one on that belong to the bullet above, rewritten. */
  function Continued(lines: seq<string>, t: Transform): seq<string> {
    if lines == [] || !Continues(lines[0]) then []
    else [if Strip(lines[0]) == "" then "" else t(Strip(lines[0]))] + Continued(lines[1..], t)
  }

  function NotEmpty(text: string): seq<string> {
    if text == "" then [] else [text]
  }

  /** The bullets up to the next heading: each bullet line with the lines that belong to it. */
  function BulletsOf(lines: seq<string>, t: Transform): seq<string> {
    if lines == [] || Heading(lines[0]).Some? then []
    else if IsBucket(Strip(lines[0])) || !IsBullet(lines[0]) then BulletsOf(lines[1..], t)
    else
      var text := BulletText([t(StripLeft(lines[0][1..]))] + Continued(lines[1..], t));
      NotEmpty(text) + BulletsOf(lines[1..], t)
  }

  /** A section for each heading, with the bullets that follow it. */
  function SectionsOf(lines: seq<string>, t: Transform): seq<Section> {
    if lines == [] then []
    else
      var version, rest := Heading(lines[0]), SectionsOf(lines[1..], t);
      if version.Some? then [Section(version.value, BulletsOf(lines[1..], t))] + rest else rest
  }

  /** What the bullet being collected becomes if these lines follow. */
  function OpenBullet(s: State, lines: seq<string>, t: Transform): seq<string> {
    if s.open.None? then [] else NotEmpty(BulletText(s.open.value + Continued(lines, t)))
  }

  /** What it becomes if it ends here. */
  function ClosedBullet(s: State): seq<string> {
    if s.open.None? then [] else NotEmpty(BulletText(s.open.value))
  }

  lemma FlushAdds(s: State)
    requires s.sections != []
    ensures Flush(s) == State(WithBullets(s.sections, ClosedBullet(s)), None)
  {
    NoBullets(s.sections);
  }

  lemma ClosedHere(s: State, lines: seq<string>, t: Transform)
    requires lines == [] || !Continues(lines[0])
    ensures OpenBullet(s, lines, t) == ClosedBullet(s)
  {
    if s.open.Some? {
      assert s.open.value + [] == s.open.value;
    }
  }

  lemma AddInTurn(sections: seq<Section>, first: seq<string>, second: seq<string>)
    requires sections != []
    ensures WithBullets(WithBullets(sections, first), second) == WithBullets(sections, first + second)
  {
    var n := |sections| - 1;
    assert sections[n].bullets + first + second == sections[n].bullets + (first + second);
  }

  /** The state machine inside a section. */
  lemma {:induction false} ScanIsGrammar(s: State, lines: seq<string>, t: Transform)
    requires s.sections != []
    ensures Flush(Scan(s, lines, t)).sections
         == WithBullets(s.sections, OpenBullet(s, lines, t) + BulletsOf(lines, t)) + SectionsOf(lines, t)
    decreases |lines|
  {
    FlushAdds(s);
    if lines == [] {
      ClosedHere(s, lines, t);
      var open := OpenBullet(s, lines, t);
      assert open + [] == open;
      assert WithBullets(s.sections, open) + [] == WithBullets(s.sections, open);
    } else {
      var next := Step(s, lines[0], t);
      ScanIsGrammar(next, lines[1..], t);
      if Heading(lines[0]).Some? {
        HeadingStep(s, lines, t);
      } else if IsBucket(Strip(lines[0])) || !IsBullet(lines[0]) {
        OtherStep(s, lines, t);
      } else {
        BulletStep(s, lines, t);
      }
    }
  }

  lemma BeginSection(flushed: seq<Section>, version: string, bullets: seq<string>, rest: seq<Section>)
    ensures WithBullets(flushed + [Section(version, [])], [] + bullets) + rest
         == flushed + ([Section(version, bullets)] + rest)
  {
    assert [] + bullets == bullets;
    assert WithBullets(flushed + [Section(version, [])], bullets) == flushed + [Section(version, bullets)];
  }

  lemma HeadingStep(s: State, lines: seq<string>, t: Transform)
    requires s.sections != [] && lines != [] && Heading(lines[0]).Some?
    ensures var next := Step(s, lines[0], t);
            && next.sections != []
            && WithBullets(next.sections, OpenBullet(next, lines[1..], t) + BulletsOf(lines[1..], t))
               + SectionsOf(lines[1..], t)
            == WithBullets(s.sections, OpenBullet(s, lines, t) + BulletsOf(lines, t)) + SectionsOf(lines, t)
  {
    FlushAdds(s);
    ClosedHere(s, lines, t);
    BeginSection(Flush(s).sections, Heading(lines[0]).value, BulletsOf(lines[1..], t), SectionsOf(lines[1..], t));
    var closed := ClosedBullet(s);
    assert closed + [] == closed;
  }

  /** A line that opens nothing either belongs to the open bullet or closes it. */
  lemma OtherStep(s: State, lines: seq<string>, t: Transform)
    requires s.sections != [] && lines != [] && Heading(lines[0]).None?
    requires IsBucket(Strip(lines[0])) || !IsBullet(lines[0])
    ensures var next := Step(s, lines[0], t);
            && next.sections != []
            && WithBullets(next.sections, OpenBullet(next, lines[1..], t) + BulletsOf(lines[1..], t))
            == WithBullets(s.sections, OpenBullet(s, lines, t) + BulletsOf(lines, t))
  {
    if s.open.Some? && Continues(lines[0]) {
      ContinueStep(s, lines, t);
    } else {
      CloseStep(s, lines, t);
    }
  }

  lemma ContinueStep(s: State, lines: seq<string>, t: Transform)
    requires s.sections != [] && s.open.Some? && lines != [] && Continues(lines[0])
    ensures var next := Step(s, lines[0], t);
            next.sections == s.sections && OpenBullet(next, lines[1..], t) == OpenBullet(s, lines, t)
  {
    var line := if Strip(lines[0]) == "" then "" else t(Strip(lines[0]));
    var more := Continued(lines[1..], t);
    assert s.open.value + [line] + more == s.open.value + ([line] + more);
  }

  lemma CloseStep(s: State, lines: seq<string>, t: Transform)
    requires s.sections != [] && lines != [] && Heading(lines[0]).None?
    requires IsBucket(Strip(lines[0])) || !IsBullet(lines[0])
    requires s.open.None? || !Continues(lines[0])
    ensures var next := Step(s, lines[0], t);
            && next.sections != []
            && WithBullets(next.sections, OpenBullet(next, lines[1..], t) + BulletsOf(lines[1..], t))
            == WithBullets(s.sections, OpenBullet(s, lines, t) + BulletsOf(lines, t))
  {
    FlushAdds(s);
    var closed, bullets := ClosedBullet(s), BulletsOf(lines[1..], t);
    if s.open.Some? {
      ClosedHere(s, lines, t);
    }
    assert Step(s, lines[0], t) == Flush(s);
    assert [] + bullets == bullets;
    AddInTurn(s.sections, closed, bullets);
  }

  lemma BulletStep(s: State, lines: seq<string>, t: Transform)
    requires s.sections != [] && lines != [] && Heading(lines[0]).None?
    requires !IsBucket(Strip(lines[0])) && IsBullet(lines[0])
    ensures var next := Step(s, lines[0], t);
            && next.sections != []
            && WithBullets(next.sections, OpenBullet(next, lines[1..], t) + BulletsOf(lines[1..], t))
            == WithBullets(s.sections, OpenBullet(s, lines, t) + BulletsOf(lines, t))
  {
    FlushAdds(s);
    ClosedHere(s, lines, t);
    AddInTurn(s.sections, ClosedBullet(s), BulletsOf(lines, t));
  }

  lemma {:induction false} ScanFromStart(lines: seq<string>, t: Transform)
    ensures Flush(Scan(START, lines, t)).sections == SectionsOf(lines, t)
  {
    if lines != [] {
      var version := Heading(lines[0]);
      if version.None? {
        ScanFromStart(lines[1..], t);
      } else {
        var begun := [Section(version.value, [])];
        assert [] + begun == begun;
        ScanIsGrammar(State(begun, None), lines[1..], t);
        var bullets := BulletsOf(lines[1..], t);
        assert [] + bullets == bullets;
        assert WithBullets(begun, bullets) == [Section(version.value, bullets)];
      }
    }
  }

  /**
   What the reader makes of any text: a section for each heading line, and in it a bullet for each
   bullet line up to the next heading, joined from that line and the blank and indented lines right
   below it.  Everything else, and all that comes before the first heading, is left out.
   */
  lemma ParseIsGrammar(text: string, t: Transform)
    ensures Parse(text, t) == SectionsOf(SplitLines(text), t)
  {
    ScanFromStart(SplitLines(text), t);
    if text == "" {
      FirstNotHash("");
      assert [""][1..] == [];
    }
  }

  /** The older headings: the version in brackets, then a link, then anything. */
  lemma LegacyHeading(version: string, link: string, rest: string)
    requires IsVersion(version, 2)
    ensures Heading("## " + ("[" + version + "](" + link + ")" + rest)) == Some(version)
  {
    LegacyBody(version, link, rest);
    BracketHeading("[" + version + "](" + link + ")" + rest);
  }

  lemma BracketHeading(body: string)
    requires body != "" && body[0] == '['
    ensures Heading("## " + body) == LegacyVersion(body)
  {
    var line := "## " + body;
    Bracketed(body);
    assert line[..2] == "##" && line[2] == ' ' && line[2..] == " " + body;
    SpacedBody(body);
  }

  lemma SpacedBody(body: string)
    requires body != "" && !IsSpace(body[0])
    ensures StripLeft(" " + body) == body
  {
    assert (" " + body)[1..] == body;
  }

  lemma {:induction false} Bracketed(s: string)
    requires s != "" && s[0] == '['
    ensures !IsVersion(StripRight(s), 2)
    decreases |s|
  {
    if IsSpace(s[|s| - 1]) {
      Bracketed(s[..|s| - 1]);
    } else {
      NotVersion(s, 2);
    }
  }

  lemma LegacyBody(version: string, link: string, rest: string)
    requires IsVersion(version, 2)
    ensures LegacyVersion("[" + version + "](" + link + ")" + rest) == Some(version)
  {
    var tail := "](" + link + ")" + rest;
    var body, n := "[" + version + "](" + link + ")" + rest, |version|;
    assert body[1..] == version + tail;
    VersionRunIs(version, 2, tail);
    assert body[1..1 + n] == version && body[1 + n..] == tail;
    assert tail[..2] == "](" && tail[2 + |link|] == ')';
  }

  lemma NotVersion(s: string, more: nat)
    requires s == "" || !IsDigit(s[0])
    ensures !IsVersion(s, more)
  {
  }

  lemma {:induction false} VersionRunIs(s: string, more: nat, tail: string)
    requires IsVersion(s, more) && tail != "" && !IsDigit(tail[0]) && tail[0] != '.'
    ensures VersionRun(s + tail) == |s|
    decreases more
  {
    var n := Digits(s);
    DigitsAre(s);
    if more == 0 {
      RunOfDigits(s, tail);
    } else {
      VersionRunIs(s[n + 1..], more - 1, tail);
      var after := s[n + 1..] + tail;
      assert ("." + after)[1..] == after;
      RunOfDigits(s[..n], "." + after);
      assert s + tail == s[..n] + ("." + after);
    }
  }

  lemma {:induction false} RunOfDigits(digits: string, rest: string)
    requires forall i :: 0 <= i < |digits| ==> IsDigit(digits[i])
    ensures VersionRun(digits + rest) == |digits| + VersionRun(rest)
  {
    if digits == "" {
      assert digits + rest == rest;
    } else {
      assert (digits + rest)[1..] == digits[1..] + rest;
      RunOfDigits(digits[1..], rest);
    }
  }

  // ---------------------------------------------------------------- any release body

  /** The answer is the first section of this version that has bullets, if there is one. */
  predicate FirstOf(sections: seq<Section>, version: string, found: Option<Section>) {
    match found
    case None => forall i :: 0 <= i < |sections| ==> sections[i].version != version || sections[i].bullets == []
    case Some(section) =>
      exists i :: 0 <= i < |sections| && sections[i] == section && section.version == version
                  && section.bullets != []
                  && forall j :: 0 <= j < i ==> sections[j].version != version || sections[j].bullets == []
  }

  lemma {:induction false} FindsFirst(sections: seq<Section>, version: string)
    ensures FirstOf(sections, version, FindSection(sections, version))
  {
    if sections != [] && !(sections[0].version == version && sections[0].bullets != []) {
      var rest := sections[1..];
      FindsFirst(rest, version);
      var found := FindSection(sections, version);
      if found.Some? {
        var i :| 0 <= i < |rest| && rest[i] == found.value && found.value.version == version
                 && found.value.bullets != []
                 && forall j :: 0 <= j < i ==> rest[j].version != version || rest[j].bullets == [];
        assert sections[i + 1] == found.value;
        assert forall j :: 0 <= j < i + 1 ==> j == 0 || sections[j] == rest[j - 1];
      }
    }
  }

  /** The lines of the wrapper. */
  lemma WrappedLines(text: string, version: string)
    requires NEWLINE !in version
    ensures SplitLines(Wrapped(text, version)) == ["## " + version, ""] + SplitLines(text) + [""]
  {
    var heading, rest := "## " + version, text + "\n";
    assert Wrapped(text, version) == heading + [NEWLINE] + ([NEWLINE] + rest);
    SplitFrontLine(heading, [NEWLINE] + rest);
    assert [NEWLINE] + rest == "" + [NEWLINE] + rest;
    SplitFrontLine("", rest);
    SplitTrailing(text);
  }

  lemma {:induction false} SplitTrailing(text: string)
    ensures SplitLines(text + "\n") == SplitLines(text) + [""]
  {
    if text == "" {
      assert text + "\n" == "\n" && "\n"[1..] == "";
    } else {
      assert (text + "\n")[1..] == text[1..] + "\n";
      SplitTrailing(text[1..]);
    }
  }

  lemma {:induction false} NoSections(lines: seq<string>, t: Transform)
    requires forall i :: 0 <= i < |lines| ==> Heading(lines[i]).None?
    ensures SectionsOf(lines, t) == []
  {
    if lines != [] {
      NoSections(lines[1..], t);
    }
  }

  /**
   The notes of a release, for any body and tag.  A body with headings gives the first section of
   the tagged version that has bullets; one without gives its own bullets.
   */
  lemma ReleaseBodyIs(body: string, tag: string, t: Transform)
    ensures var text, version := Strip(body), WithoutV(tag);
            var r := ReleaseBody(body, tag, t);
            && (text == "" || version == "" ==> r.None?)
            && (text != "" && version != "" && HasHeading(text) ==>
                  FirstOf(SectionsOf(SplitLines(text), t), version, r))
            && (text != "" && IsVersion(version, 2) && !HasHeading(text) ==>
                  var bullets := BulletsOf(SplitLines(text) + [""], t);
                  r == if bullets == [] then None else Some(Section(version, bullets)))
  {
    var text, version := Strip(body), WithoutV(tag);
    if HasHeading(text) {
      ParseIsGrammar(text, t);
      FindsFirst(SectionsOf(SplitLines(text), t), version);
    } else if IsVersion(version, 2) {
      WrappedSections(text, version, t);
    }
  }

  lemma WrappedSections(text: string, version: string, t: Transform)
    requires IsVersion(version, 2) && !HasHeading(text)
    ensures Parse(Wrapped(text, version), t) == [Section(version, BulletsOf(SplitLines(text) + [""], t))]
  {
    var tail := SplitLines(text) + [""];
    var lines := ["## " + version, ""] + SplitLines(text) + [""];
    VersionHasNoNewline(version, 2);
    WrappedLines(text, version);
    ParseIsGrammar(Wrapped(text, version), t);
    PrintedHeading(version);
    FirstNotHash("");
    assert lines[1..] == [""] + tail && lines[1..][1..] == tail;
    NoSections(tail, t);
    assert SectionsOf(lines[1..], t) == [];
    assert BulletsOf(lines[1..], t) == BulletsOf(tail, t);
  }

  // ---------------------------------------------------------------- clean bullets

  lemma {:induction false} StripTwice(s: string)
    ensures Strip(Strip(s)) == Strip(s)
    decreases |s|
  {
    if s != "" && IsSpace(s[0]) {
      StripTwice(s[1..]);
    } else if s != "" && IsSpace(s[|s| - 1]) {
      StripTwice(s[..|s| - 1]);
    }
  }

  predicate NoThreeNewlines(s: string) {
    forall i :: 0 <= i < |s| - 2 ==> s[i] != NEWLINE || s[i + 1] != NEWLINE || s[i + 2] != NEWLINE
  }

  /** s is t with further newlines where t has two in a row. */
  predicate Squeezes(t: string, s: string)
    decreases |s|
  {
    if s == "" then t == ""
    else
      && t != "" && t[0] == s[0]
      && (Squeezes(t[1..], s[1..])
          || (|s| > 2 && s[0] == s[1] == s[2] == NEWLINE && Squeezes(t, s[1..])))
  }

  /** Three newlines or more become two, and nothing else changes. */
  lemma {:induction false} SqueezeIs(s: string)
    ensures NoThreeNewlines(SqueezeBlank(s)) && Squeezes(SqueezeBlank(s), s)
    ensures |SqueezeBlank(s)| > 1 && SqueezeBlank(s)[0] == SqueezeBlank(s)[1] == NEWLINE ==>
              |s| > 1 && s[0] == s[1] == NEWLINE
    ensures s != "" ==> SqueezeBlank(s) != "" && SqueezeBlank(s)[0] == s[0]
    decreases |s|
  {
    if s != "" {
      var t, rest := SqueezeBlank(s), SqueezeBlank(s[1..]);
      SqueezeIs(s[1..]);
      if !(|s| > 2 && s[0] == NEWLINE && s[1] == NEWLINE && s[2] == NEWLINE) {
        assert t[1..] == rest;
        forall i | 0 <= i < |t| - 2 ensures t[i] != NEWLINE || t[i + 1] != NEWLINE || t[i + 2] != NEWLINE {
          if i > 0 {
            assert t[i] == rest[i - 1] && t[i + 1] == rest[i] && t[i + 2] == rest[i + 1];
          }
        }
      }
    }
  }

  lemma {:induction false} StrippedHasNone(s: string)
    requires NoThreeNewlines(s)
    ensures NoThreeNewlines(Strip(s)) && NoThreeNewlines(StripRight(s))
    decreases |s|
  {
    if s != "" {
      StrippedHasNone(s[1..]);
      StrippedHasNone(s[..|s| - 1]);
    }
  }

  predicate CleanBullet(b: string) {
    b != "" && Strip(b) == b && NoThreeNewlines(b)
  }

  predicate CleanSections(sections: seq<Section>) {
    forall i, j :: 0 <= i < |sections| && 0 <= j < |sections[i].bullets| ==> CleanBullet(sections[i].bullets[j])
  }

  lemma FlushClean(s: State)
    requires CleanSections(s.sections)
    ensures CleanSections(Flush(s).sections)
  {
    if s.sections != [] && s.open.Some? {
      var text := SqueezeBlank(JoinLines(s.open.value));
      StripTwice(StripRight(text));
      SqueezeIs(JoinLines(s.open.value));
      StrippedHasNone(text);
      StrippedHasNone(StripRight(text));
    }
  }

  lemma {:induction false} ScanClean(s: State, lines: seq<string>, t: Transform)
    requires CleanSections(s.sections)
    ensures CleanSections(Scan(s, lines, t).sections)
    decreases |lines|
  {
    if lines != [] {
      FlushClean(s);
      ScanClean(Step(s, lines[0], t), lines[1..], t);
    }
  }

  /**
   Whatever the text, no bullet is empty, has white space at its ends or more than one blank line in
   a row: cleaning them again at the end changes nothing.
   */
  lemma ParsedBulletsAreClean(text: string, t: Transform)
    ensures CleanSections(Parse(text, t))
  {
    if text != "" {
      ScanClean(START, SplitLines(text), t);
      FlushClean(Scan(START, SplitLines(text), t));
    }
  }
}
