/**
 The title sweep behind series matching (dynamic_replace, and the comparison in matchIT): names
 are rewritten in place, slice by slice, at positions that are collected handler by handler and
 word by word and never forgotten, so that every round overwrites the earlier positions again.

 The rounds are shown, one after the other, to be replacements of single patterns; all of them
 together to amount to one pass over the name; and that pass, once its bars are dropped, to be a simple
 filter.  Names are ASCII here.
 */
module TitleSweep {
  import opened Text

  const BAR: char := '|'

  const HANDLERS: seq<string> := ["/", "-", ":", ";", "'", "\"", ",", "&", "?", "!", "+", "*", "(", ")",
                                  "\\u2014", "\\u2013", "\\u2019"]

  predicate Separator(c: char) {
    IsSpace(c) || c == '+' || c == '_' || c == '.'
  }

  // ---------------------------------------------------------------- the sweep

  /** re.sub(r"[\s+_.]", "%$", name), then re.sub("#", "", ...) */
  function Separate(name: string): string {
    if name == "" then ""
    else (if Separator(name[0]) then "%$" else if name[0] == '#' then "" else [name[0]]) + Separate(name[1..])
  }

  function Bars(n: nat): (bars: string)
    ensures |bars| == n && forall i :: 0 <= i < n ==> bars[i] == BAR
  {
    seq(n, i => BAR)
  }

  function Least(a: nat, b: nat): nat {
    if a <= b then a else b
  }

  /** name[:at] + spacer + name[at + cut:], with slices clipped to the string. */
  function Overwrite(s: string, at: nat, width: nat, cut: nat): string {
    s[..Least(at, |s|)] + Bars(width) + s[Least(at + cut, |s|)..]
  }

  function OverwriteAll(s: string, finds: seq<nat>, width: nat, cut: nat): string {
    if finds == [] then s
    else Overwrite(OverwriteAll(s, finds[..|finds| - 1], width, cut), finds[|finds| - 1], width, cut)
  }

  /** re.finditer: the starts of the non-overlapping occurrences, offset by `at`. */
  function FindAll(s: string, p: string, at: nat): seq<nat> {
    if p == "" || |s| < |p| then []
    else if StartsWith(s, p) then [at] + FindAll(s[|p|..], p, at + |p|)
    else FindAll(s[1..], p, at + 1)
  }

  /** The name being rewritten and the positions collected so far. */
  datatype Sweep = Sweep(s: string, finds: seq<nat>)

  function SweepHandler(w: Sweep, handler: string): Sweep {
    var finds := w.finds + FindAll(w.s, handler, 0);
    Sweep(OverwriteAll(w.s, finds, |handler|, 1), finds)
  }

  function SweepWord(w: Sweep, word: string): Sweep {
    var finds := w.finds + FindAll(Lower(w.s), word, 0);
    Sweep(OverwriteAll(w.s, finds, |word|, |word|), finds)
  }

  /** The patterns that occur in the name, ignoring case. */
  function Present(patterns: seq<string>, name: string): (present: seq<string>)
    ensures forall p :: p in present ==> p in patterns && Contains(Lower(name), Lower(p))
    ensures forall p :: p in patterns && Contains(Lower(name), Lower(p)) ==> p in present
  {
    if patterns == [] then []
    else Present(patterns[..|patterns| - 1], name)
         + (if Contains(Lower(name), Lower(patterns[|patterns| - 1])) then [patterns[|patterns| - 1]] else [])
  }

  function SweepHandlers(s: string, handlers: seq<string>): Sweep {
    if handlers == [] then Sweep(s, [])
    else SweepHandler(SweepHandlers(s, handlers[..|handlers| - 1]), handlers[|handlers| - 1])
  }

  function SweepWords(s: string, words: seq<string>): Sweep {
    if words == [] then Sweep(s, [])
    else SweepWord(SweepWords(s, words[..|words| - 1]), words[|words| - 1])
  }

  /** re.sub(r"\|+", "|", s) */
  function Collapse(s: string): string {
    if s == "" then ""
    else if s[0] == BAR && |s| > 1 && s[1] == BAR then Collapse(s[1..])
    else [s[0]] + Collapse(s[1..])
  }

  function Without(s: string, dropped: char -> bool): string {
    if s == "" then "" else (if dropped(s[0]) then "" else [s[0]]) + Without(s[1..], dropped)
  }

  predicate IsPercent(c: char) {
    c == '%' || c == '$'
  }

  predicate IsBlank(c: char) {
    c == ' '
  }

  predicate IsBar(c: char) {
    c == BAR
  }

  /** if s.endswith("|"): s = s[:-1] */
  function Unbarred(u: string): string {
    if u != "" && u[|u| - 1] == BAR then u[..|u| - 1] else u
  }

  /** The last steps: one bar for several, none at the end, and no placeholder characters. */
  function Finish(s: string): string {
    Without(Unbarred(Collapse(s)), IsPercent)
  }

  const WORDS: seq<string> := ["and", "the"]

  /** dynamic_replace on one name. */
  function DynamicReplace(name: string, handlers: seq<string>, words: seq<string>): string {
    var swept := SweepHandlers(Separate(name), Present(handlers, name));
    Finish(SweepWords(swept.s, Present(words, name)).s)
  }

  method OverwriteFinds(s: string, finds: seq<nat>, width: nat, cut: nat) returns (t: string)
    ensures t == OverwriteAll(s, finds, width, cut)
  {
    t := s;
    for k := 0 to |finds|
      invariant t == OverwriteAll(s, finds[..k], width, cut)
    {
      assert finds[..k + 1][..k] == finds[..k];
      var spacer := "";
      for n := 0 to width
        invariant spacer == Bars(n)
      {
        spacer := spacer + [BAR];
      }
      t := t[..Least(finds[k], |t|)] + spacer + t[Least(finds[k] + cut, |t|)..];
    }
    assert finds[..|finds|] == finds;
  }

  method ReplaceHandlers(name: string, handlers: seq<string>) returns (s: string)
    ensures s == SweepHandlers(name, handlers).s
  {
    s := name;
    var finds: seq<nat> := [];
    for k := 0 to |handlers|
      invariant Sweep(s, finds) == SweepHandlers(name, handlers[..k])
    {
      assert handlers[..k + 1][..k] == handlers[..k];
      finds := finds + FindAll(s, handlers[k], 0);
      s := OverwriteFinds(s, finds, |handlers[k]|, 1);
    }
    assert handlers[..|handlers|] == handlers;
  }

  method ReplaceWords(name: string, words: seq<string>) returns (s: string)
    ensures s == SweepWords(name, words).s
  {
    s := name;
    var finds: seq<nat> := [];
    for k := 0 to |words|
      invariant Sweep(s, finds) == SweepWords(name, words[..k])
    {
      assert words[..k + 1][..k] == words[..k];
      finds := finds + FindAll(Lower(s), words[k], 0);
      s := OverwriteFinds(s, finds, |words[k]|, |words[k]|);
    }
    assert words[..|words|] == words;
  }

  method Replace(name: string, handlers: seq<string>, words: seq<string>) returns (replaced: string)
    ensures replaced == DynamicReplace(name, handlers, words)
  {
    var handled := ReplaceHandlers(Separate(name), Present(handlers, name));
    var swept := ReplaceWords(handled, Present(words, name));
    replaced := Finish(swept);
  }

  /** What matchIT compares: without spaces and bars, in lower case, stripped. */
  function MatchKey(s: string): string {
    Strip(Lower(Without(Without(s, IsBlank), IsBar)))
  }

  // ---------------------------------------------------------------- overwriting again changes nothing

  predicate BarredAt(s: string, at: nat, width: nat) {
    at + width <= |s| && forall k :: at <= k < at + width ==> s[k] == BAR
  }

  /** Every collected position already holds bars. */
  predicate Barred(s: string, finds: seq<nat>, width: nat) {
    forall i :: 0 <= i < |finds| ==> BarredAt(s, finds[i], width)
  }

  lemma {:induction false} OverwriteBarred(s: string, finds: seq<nat>, width: nat)
    requires Barred(s, finds, width)
    ensures OverwriteAll(s, finds, width, width) == s
  {
    if finds != [] {
      var n := |finds| - 1;
      OverwriteBarred(s, finds[..n], width);
      assert BarredAt(s, finds[n], width);
      assert s[finds[n]..finds[n] + width] == Bars(width);
    }
  }

  lemma {:induction false} OverwriteInTurn(s: string, first: seq<nat>, second: seq<nat>, width: nat, cut: nat)
    ensures OverwriteAll(s, first + second, width, cut)
            == OverwriteAll(OverwriteAll(s, first, width, cut), second, width, cut)
    decreases |second|
  {
    if second == [] {
      assert first + second == first;
    } else {
      var n := |second| - 1;
      OverwriteInTurn(s, first, second[..n], width, cut);
      assert (first + second)[..|first + second| - 1] == first + second[..n];
    }
  }

  // ---------------------------------------------------------------- one round, recursively

  /**
   Every occurrence of the pattern in the key replaced by bars; the key is the string in the case
   it is searched in.
   */
  function Mark(s: string, key: string, p: string): string
    requires |s| == |key|
    decreases |s|
  {
    if p == "" || |s| < |p| then s
    else if StartsWith(key, p) then Bars(|p|) + Mark(s[|p|..], key[|p|..], p)
    else [s[0]] + Mark(s[1..], key[1..], p)
  }

  lemma {:induction false} MarkLength(s: string, key: string, p: string)
    requires |s| == |key|
    ensures |Mark(s, key, p)| == |s|
    decreases |s|
  {
    if p != "" && |s| >= |p| {
      if StartsWith(key, p) {
        MarkLength(s[|p|..], key[|p|..], p);
      } else {
        MarkLength(s[1..], key[1..], p);
      }
    }
  }

  lemma OverwriteOneBehind(front: string, t: string, at: nat, width: nat)
    ensures Overwrite(front + t, at + |front|, width, width) == front + Overwrite(t, at, width, width)
  {
    var s := front + t;
    assert s[..Least(at + |front|, |s|)] == front + t[..Least(at, |t|)];
    assert s[Least(at + |front| + width, |s|)..] == t[Least(at + width, |t|)..];
  }

  lemma OverwriteLast(s: string, finds: seq<nat>, width: nat)
    requires finds != []
    ensures var n := |finds| - 1;
            OverwriteAll(s, finds, width, width)
              == Overwrite(OverwriteAll(s, finds[..n], width, width), finds[n], width, width)
  {
  }

  predicate Shifted(finds: seq<nat>, shifted: seq<nat>, offset: nat) {
    |shifted| == |finds| && forall i :: 0 <= i < |finds| ==> shifted[i] == finds[i] + offset
  }

  /** Overwriting behind a prefix leaves the prefix alone. */
  lemma {:induction false} OverwriteBehind(front: string, s: string, finds: seq<nat>, shifted: seq<nat>, width: nat)
    requires Shifted(finds, shifted, |front|)
    ensures OverwriteAll(front + s, shifted, width, width) == front + OverwriteAll(s, finds, width, width)
    decreases |finds|
  {
    if finds != [] {
      var n := |finds| - 1;
      OverwriteBehind(front, s, finds[..n], shifted[..n], width);
      OverwriteLast(s, finds, width);
      OverwriteLast(front + s, shifted, width);
      OverwriteOneBehind(front, OverwriteAll(s, finds[..n], width, width), finds[n], width);
    }
  }

  lemma BarredBehind(front: string, s: string, finds: seq<nat>, shifted: seq<nat>, width: nat)
    requires Shifted(finds, shifted, |front|) && Barred(s, finds, width)
    ensures Barred(front + s, shifted, width)
  {
    forall i | 0 <= i < |shifted| ensures BarredAt(front + s, shifted[i], width) {
      assert BarredAt(s, finds[i], width);
    }
  }

  lemma {:induction false} FindShifted(s: string, p: string, at: nat)
    ensures Shifted(FindAll(s, p, 0), FindAll(s, p, at), at)
    decreases |s|
  {
    if p != "" && |s| >= |p| {
      if StartsWith(s, p) {
        FindShifted(s[|p|..], p, at + |p|);
        FindShifted(s[|p|..], p, |p|);
      } else {
        FindShifted(s[1..], p, at + 1);
        FindShifted(s[1..], p, 1);
      }
    }
  }

  /** Overwriting all occurrences, found beforehand, is the recursive replacement. */
  predicate FindsAre(s: string, key: string, p: string)
    requires |s| == |key|
  {
    && OverwriteAll(s, FindAll(key, p, 0), |p|, |p|) == Mark(s, key, p)
    && Barred(Mark(s, key, p), FindAll(key, p, 0), |p|)
  }

  lemma {:induction false} OverwriteIsMark(s: string, key: string, p: string)
    requires |s| == |key|
    ensures FindsAre(s, key, p)
    decreases |s|
  {
    if p != "" && |s| >= |p| {
      if StartsWith(key, p) {
        OverwriteIsMark(s[|p|..], key[|p|..], p);
        OverwriteHit(s, key, p);
      } else {
        OverwriteIsMark(s[1..], key[1..], p);
        OverwriteMiss(s, key, p);
      }
    }
  }

  lemma OverwriteMiss(s: string, key: string, p: string)
    requires |s| == |key| && p != "" && |s| >= |p| && !StartsWith(key, p) && FindsAre(s[1..], key[1..], p)
    ensures FindsAre(s, key, p)
  {
    var finds, shifted := FindAll(key[1..], p, 0), FindAll(key[1..], p, 1);
    FindShifted(key[1..], p, 1);
    OverwriteBehind([s[0]], s[1..], finds, shifted, |p|);
    assert s == [s[0]] + s[1..];
    BarredBehind([s[0]], Mark(s[1..], key[1..], p), finds, shifted, |p|);
  }

  lemma OverwriteHit(s: string, key: string, p: string)
    requires |s| == |key| && p != "" && StartsWith(key, p) && FindsAre(s[|p|..], key[|p|..], p)
    ensures FindsAre(s, key, p)
  {
    var n := |p|;
    var finds, shifted := FindAll(key[n..], p, 0), FindAll(key[n..], p, n);
    FindShifted(key[n..], p, n);
    OverwriteInTurn(s, [0], shifted, n, n);
    OverwriteFirst(s, n);
    OverwriteBehind(Bars(n), s[n..], finds, shifted, n);
    var tail := Mark(s[n..], key[n..], p);
    BarredBehind(Bars(n), tail, finds, shifted, n);
    FrontBarred(n, tail, shifted);
  }

  lemma FrontBarred(n: nat, tail: string, finds: seq<nat>)
    requires Barred(Bars(n) + tail, finds, n)
    ensures Barred(Bars(n) + tail, [0] + finds, n)
  {
  }

  lemma OverwriteFirst(s: string, n: nat)
    requires n <= |s|
    ensures OverwriteAll(s, [0], n, n) == Bars(n) + s[n..]
  {
    assert [0][..0] == [];
    assert OverwriteAll(s, [0][..0], n, n) == s;
    assert s[..0] + Bars(n) == Bars(n);
  }

  // ---------------------------------------------------------------- all rounds together

  /** A round turns characters into bars and leaves the others alone. */
  lemma {:induction false} MarkAt(s: string, key: string, p: string, i: nat)
    requires |s| == |key| && i < |s|
    ensures |Mark(s, key, p)| == |s|
    ensures Mark(s, key, p)[i] == BAR || Mark(s, key, p)[i] == s[i]
    decreases |s|
  {
    MarkLength(s, key, p);
    if p != "" && |s| >= |p| {
      if StartsWith(key, p) {
        if i >= |p| {
          MarkAt(s[|p|..], key[|p|..], p, i - |p|);
        }
      } else if i > 0 {
        MarkAt(s[1..], key[1..], p, i - 1);
      }
    }
  }

  lemma MarkKeepsBars(s: string, key: string, p: string, finds: seq<nat>, width: nat)
    requires |s| == |key| && Barred(s, finds, width)
    ensures Barred(Mark(s, key, p), finds, width)
  {
    MarkLength(s, key, p);
    forall i | 0 <= i < |finds| ensures BarredAt(Mark(s, key, p), finds[i], width) {
      assert BarredAt(s, finds[i], width);
      forall k | finds[i] <= k < finds[i] + width ensures Mark(s, key, p)[k] == BAR {
        MarkAt(s, key, p, k);
      }
    }
  }

  /** Forgetting the earlier positions would make no difference: a round is just its own replacement. */
  lemma RoundIsMark(s: string, key: string, p: string, finds: seq<nat>)
    requires |s| == |key| && Barred(s, finds, |p|)
    ensures var all := finds + FindAll(key, p, 0);
            && OverwriteAll(s, all, |p|, |p|) == Mark(s, key, p)
            && Barred(Mark(s, key, p), all, |p|)
  {
    OverwriteInTurn(s, finds, FindAll(key, p, 0), |p|, |p|);
    OverwriteBarred(s, finds, |p|);
    OverwriteIsMark(s, key, p);
    MarkKeepsBars(s, key, p, finds, |p|);
  }

  /** Characters whose one-character pattern is in the list become bars. */
  function Handled(s: string, handlers: seq<string>): (t: string)
    ensures |t| == |s|
    ensures forall i :: 0 <= i < |s| ==> t[i] == if [s[i]] in handlers then BAR else s[i]
  {
    seq(|s|, i requires 0 <= i < |s| => if [s[i]] in handlers then BAR else s[i])
  }

  lemma {:induction false} MarkChar(s: string, c: char, i: nat)
    requires i < |s|
    ensures |Mark(s, s, [c])| == |s| && Mark(s, s, [c])[i] == if s[i] == c then BAR else s[i]
  {
    MarkLength(s, s, [c]);
    if i > 0 {
      MarkChar(s[1..], c, i - 1);
    } else {
      assert s[..1] == [s[0]];
    }
  }

  predicate SingleChars(handlers: seq<string>) {
    forall h :: h in handlers ==> |h| == 1 && h[0] != BAR
  }

  lemma {:induction false} HandlersMark(s: string, handlers: seq<string>)
    requires SingleChars(handlers)
    ensures var w := SweepHandlers(s, handlers);
            w.s == Handled(s, handlers) && Barred(w.s, w.finds, 1)
  {
    if handlers == [] {
      assert Handled(s, []) == s;
    } else {
      var n := |handlers| - 1;
      HandlersMark(s, handlers[..n]);
      var w := SweepHandlers(s, handlers[..n]);
      var h := handlers[n];
      assert h in handlers && h == [h[0]];
      RoundIsMark(w.s, w.s, h, w.finds);
      OneHandlerMore(s, handlers);
    }
  }

  lemma OneHandlerMore(s: string, handlers: seq<string>)
    requires handlers != [] && |handlers[|handlers| - 1]| == 1
    ensures var n := |handlers| - 1;
            var t := Handled(s, handlers[..n]);
            Mark(t, t, handlers[n]) == Handled(s, handlers)
  {
    var n := |handlers| - 1;
    var t, h := Handled(s, handlers[..n]), handlers[n];
    assert h == [h[0]];
    MarkLength(t, t, h);
    forall i | 0 <= i < |s| ensures Mark(t, t, h)[i] == Handled(s, handlers)[i] {
      MarkChar(t, h[0], i);
      assert [s[i]] in handlers <==> [s[i]] in handlers[..n] || [s[i]] == h;
    }
  }

  function MarkWords(s: string, words: seq<string>): (t: string) {
    if words == [] then s
    else
      var t := MarkWords(s, words[..|words| - 1]);
      Mark(t, Lower(t), words[|words| - 1])
  }

  lemma {:induction false} WordsMark(s: string, words: seq<string>, width: nat)
    requires forall w :: w in words ==> |w| == width
    ensures var w := SweepWords(s, words);
            w.s == MarkWords(s, words) && Barred(w.s, w.finds, width)
  {
    if words != [] {
      var n := |words| - 1;
      WordsMark(s, words[..n], width);
      var w := SweepWords(s, words[..n]);
      assert words[n] in words;
      RoundIsMark(w.s, Lower(w.s), words[n], w.finds);
    }
  }

  // ---------------------------------------------------------------- the filter

  const SINGLES: string := "/-:;'\",&?!+*()"

  predicate Dropped(c: char) {
    Separator(c) || c in SINGLES || c == '%' || c == '$' || c == BAR
  }

  function Lead(s: string): string {
    Lower(if |s| < 3 then s else s[..3])
  }

  /** The specification: a name without its separators, handler characters and, if they occur, "and" and "the". */
  function Filter(s: string, noAnd: bool, noThe: bool): string
    decreases |s|
  {
    if s == "" then ""
    else if (noAnd && Lead(s) == "and") || (noThe && Lead(s) == "the") then Filter(s[3..], noAnd, noThe)
    else (if Dropped(s[0]) then "" else [s[0]]) + Filter(s[1..], noAnd, noThe)
  }

  /** The bars that the sweep puts in, decided in one pass from the left. */
  function OnePass(s: string, noAnd: bool, noThe: bool): (t: string)
    ensures |t| == |s|
    decreases |s|
  {
    if s == "" then ""
    else if (noAnd && Lead(s) == "and") || (noThe && Lead(s) == "the") then Bars(3) + OnePass(s[3..], noAnd, noThe)
    else [if s[0] in SINGLES then BAR else s[0]] + OnePass(s[1..], noAnd, noThe)
  }

  predicate Barely(c: char) {
    c == BAR || c == '%' || c == '$'
  }

  lemma {:induction false} WithoutAppend(a: string, b: string, dropped: char -> bool)
    ensures Without(a + b, dropped) == Without(a, dropped) + Without(b, dropped)
  {
    if a == "" {
      assert a + b == b;
    } else {
      assert (a + b)[1..] == a[1..] + b;
      WithoutAppend(a[1..], b, dropped);
    }
  }

  lemma WithoutBars()
    ensures Without(Bars(3), Barely) == ""
  {
    var b := Bars(3);
    assert b[1..][1..][1..] == "";
    assert Without(b[1..][1..], Barely) == "";
    assert Without(b[1..], Barely) == "";
  }

  /** Dropping the bars from one pass is filtering, when separators have been replaced already. */
  lemma {:induction false} OnePassIsFilter(s: string, noAnd: bool, noThe: bool)
    requires forall i :: 0 <= i < |s| ==> !Separator(s[i])
    ensures Without(OnePass(s, noAnd, noThe), Barely) == Filter(s, noAnd, noThe)
    decreases |s|
  {
    if s != "" {
      if (noAnd && Lead(s) == "and") || (noThe && Lead(s) == "the") {
        OnePassIsFilter(s[3..], noAnd, noThe);
        WithoutAppend(Bars(3), OnePass(s[3..], noAnd, noThe), Barely);
        WithoutBars();
      } else {
        OnePassIsFilter(s[1..], noAnd, noThe);
        var first := if s[0] in SINGLES then BAR else s[0];
        assert ([first] + OnePass(s[1..], noAnd, noThe))[1..] == OnePass(s[1..], noAnd, noThe);
      }
    }
  }

  lemma {:induction false} MarkStep(s: string, p: string)
    requires s != "" && !StartsWith(Lower(s), p)
    ensures Mark(s, Lower(s), p) == [s[0]] + Mark(s[1..], Lower(s[1..]), p)
  {
    assert Lower(s)[1..] == Lower(s[1..]);
    if |s| < |p| {
      assert s == [s[0]] + s[1..];
    }
  }

  /** A three-letter word at the front is replaced. */
  lemma MarkHit(s: string, p: string)
    requires |p| == 3 && StartsWith(Lower(s), p)
    ensures Mark(s, Lower(s), p) == Bars(3) + Mark(s[3..], Lower(s[3..]), p)
  {
    assert Lower(s)[3..] == Lower(s[3..]);
  }

  lemma StartsWithWord(s: string, p: string)
    requires |p| == 3
    ensures StartsWith(Lower(s), p) <==> Lead(s) == p
  {
    if |s| >= 3 {
      assert Lower(s)[..3] == Lower(s[..3]);
    }
  }

  /** A character that does not start the word is passed over. */
  lemma MarkPass(c: char, s: string, p: string)
    requires p != "" && LowerChar(c) != p[0]
    ensures Mark([c] + s, Lower([c] + s), p) == [c] + Mark(s, Lower(s), p)
  {
    var t := [c] + s;
    assert Lower(t)[0] == LowerChar(c);
    MarkStep(t, p);
    assert t[1..] == s;
  }

  lemma MarkPassThree(front: string, s: string, p: string)
    requires |front| == 3 && p != "" && forall i :: 0 <= i < 3 ==> LowerChar(front[i]) != p[0]
    ensures Mark(front + s, Lower(front + s), p) == front + Mark(s, Lower(s), p)
  {
    assert front + s == [front[0]] + ([front[1]] + ([front[2]] + s));
    MarkPass(front[2], s, p);
    MarkPass(front[1], [front[2]] + s, p);
    MarkPass(front[0], [front[1]] + ([front[2]] + s), p);
    assert front == [front[0]] + [front[1]] + [front[2]];
  }

  function Hand(s: string): (t: string)
    ensures |t| == |s|
    ensures forall i :: 0 <= i < |s| ==> t[i] == if s[i] in SINGLES then BAR else s[i]
  {
    seq(|s|, i requires 0 <= i < |s| => if s[i] in SINGLES then BAR else s[i])
  }

  function MarkIf(s: string, p: string, wanted: bool): string {
    if wanted then Mark(s, Lower(s), p) else s
  }

  predicate Word(p: string) {
    |p| == 3 && forall i :: 0 <= i < 3 ==> 'a' <= p[i] <= 'z'
  }

  lemma LetterStays(c: char)
    requires 'a' <= LowerChar(c) <= 'z'
    ensures c !in SINGLES && c != BAR && !Separator(c)
  {
    assert forall d :: d in SINGLES ==> d < 'A';
  }

  /** Handler characters are not letters, so turning them into bars moves no word. */
  lemma HandLead(s: string, p: string)
    requires Word(p)
    ensures Lead(Hand(s)) == p <==> Lead(s) == p
    ensures Lead(s) == p ==> |s| >= 3 && Hand(s) == s[..3] + Hand(s[3..])
  {
    if Lead(s) == p {
      forall i | 0 <= i < 3 ensures Hand(s)[i] == s[i] {
        assert LowerChar(s[..3][i]) == p[i];
        LetterStays(s[i]);
      }
      assert Hand(s)[..3] == s[..3];
    }
    if Lead(Hand(s)) == p {
      forall i | 0 <= i < 3 ensures Hand(s)[i] == s[i] {
        assert LowerChar(Hand(s)[..3][i]) == p[i];
        LetterStays(Hand(s)[i]);
      }
      assert Hand(s)[..3] == s[..3];
    }
  }

  /** A word read across the front of a marked string is a word of the unmarked one. */
  lemma MarkedLead(c: char, s: string, first: string, wanted: bool, p: string)
    requires Word(p)
    ensures Lead([c] + MarkIf(s, first, wanted)) == p ==> Lead([c] + s) == p
  {
    var t := MarkIf(s, first, wanted);
    if wanted {
      MarkLength(s, Lower(s), first);
    }
    if Lead([c] + t) == p {
      forall i | 0 <= i < 2 ensures t[i] == s[i] {
        assert LowerChar(([c] + t)[..3][i + 1]) == p[i + 1];
        LetterStays(t[i]);
        if wanted {
          MarkAt(s, Lower(s), first, i);
        }
      }
      assert ([c] + t)[..3] == ([c] + s)[..3];
    }
  }

  predicate Rounds(s: string, noAnd: bool, noThe: bool) {
    MarkIf(MarkIf(Hand(s), "and", noAnd), "the", noThe) == OnePass(s, noAnd, noThe)
  }

  lemma {:induction false} RoundsAreOnePass(s: string, noAnd: bool, noThe: bool)
    ensures Rounds(s, noAnd, noThe)
    decreases |s|
  {
    if s == "" {
      assert Hand(s) == "";
    } else if noAnd && Lead(s) == "and" {
      RoundsAreOnePass(s[3..], noAnd, noThe);
      RoundsAnd(s, noThe);
    } else if noThe && Lead(s) == "the" {
      RoundsAreOnePass(s[3..], noAnd, noThe);
      RoundsThe(s, noAnd);
    } else {
      RoundsAreOnePass(s[1..], noAnd, noThe);
      RoundsOther(s, noAnd, noThe);
    }
  }

  lemma RoundsAnd(s: string, noThe: bool)
    requires Lead(s) == "and" && Rounds(s[3..], true, noThe)
    ensures Rounds(s, true, noThe)
  {
    var h, rest := Hand(s), Hand(s[3..]);
    HandLead(s, "and");
    StartsWithWord(h, "and");
    MarkHit(h, "and");
    assert h[3..] == rest;
    var tail := MarkIf(rest, "and", true);
    if noThe {
      MarkPassThree(Bars(3), tail, "the");
    }
  }

  lemma RoundsThe(s: string, noAnd: bool)
    requires Lead(s) == "the" && Rounds(s[3..], noAnd, true)
    ensures Rounds(s, noAnd, true)
  {
    var h, rest, front := Hand(s), Hand(s[3..]), s[..3];
    HandLead(s, "the");
    assert Lower(front) == "the";
    assert forall i :: 0 <= i < 3 ==> LowerChar(front[i]) == "the"[i] != 'a';
    if noAnd {
      MarkPassThree(front, rest, "and");
    }
    var tail := MarkIf(rest, "and", noAnd);
    assert MarkIf(h, "and", noAnd) == front + tail;
    assert (front + tail)[..3] == front && (front + tail)[3..] == tail;
    StartsWithWord(front + tail, "the");
    MarkHit(front + tail, "the");
    assert Lead(s) != "and";
  }

  lemma RoundsOther(s: string, noAnd: bool, noThe: bool)
    requires s != "" && !(noAnd && Lead(s) == "and") && !(noThe && Lead(s) == "the")
    requires Rounds(s[1..], noAnd, noThe)
    ensures Rounds(s, noAnd, noThe)
  {
    var h, rest := Hand(s), Hand(s[1..]);
    assert h == [h[0]] + rest && h[1..] == rest;
    HandLead(s, "and");
    HandLead(s, "the");
    StartsWithWord(h, "and");
    if noAnd {
      MarkStep(h, "and");
    }
    var tail := MarkIf(rest, "and", noAnd);
    var t := [h[0]] + tail;
    assert MarkIf(h, "and", noAnd) == t;
    MarkedLead(h[0], rest, "and", noAnd, "the");
    StartsWithWord(t, "the");
    if noThe {
      MarkStep(t, "the");
      assert t[1..] == tail;
    }
  }

  // ---------------------------------------------------------------- the bars of the result

  predicate EndsInBar(s: string) {
    s != "" && s[|s| - 1] == BAR
  }

  predicate NoTwoBars(t: string) {
    forall i :: 0 <= i < |t| - 1 ==> t[i] != BAR || t[i + 1] != BAR
  }

  /** s is t with some of its bars repeated. */
  predicate Repeats(t: string, s: string)
    decreases |s|
  {
    if s == "" then t == ""
    else t != "" && t[0] == s[0] && (Repeats(t[1..], s[1..]) || (s[0] == BAR && Repeats(t, s[1..])))
  }

  lemma {:induction false} CollapsedBars(s: string)
    ensures NoTwoBars(Collapse(s)) && Repeats(Collapse(s), s)
    ensures s != "" ==> Collapse(s) != "" && Collapse(s)[0] == s[0]
    ensures EndsInBar(Collapse(s)) <==> EndsInBar(s)
    decreases |s|
  {
    if s != "" {
      CollapsedBars(s[1..]);
      if !(s[0] == BAR && |s| > 1 && s[1] == BAR) {
        var t, rest := Collapse(s), Collapse(s[1..]);
        assert t[1..] == rest;
        forall i | 0 <= i < |t| - 1 ensures t[i] != BAR || t[i + 1] != BAR {
          if i > 0 {
            assert t[i] == rest[i - 1] && t[i + 1] == rest[i];
          }
        }
      }
    }
  }

  /**
   The last steps: repeated bars become one, and a bar at the end is cut off; only then do the
   placeholder characters go, which may bring bars together again.
   */
  lemma FinishIs(s: string) returns (t: string)
    ensures NoTwoBars(t) && Repeats(t, s)
    ensures Without(t, IsPercent) == Finish(s) + (if EndsInBar(s) then [BAR] else "")
  {
    t := Collapse(s);
    CollapsedBars(s);
    if EndsInBar(t) {
      var n := |t| - 1;
      assert t == t[..n] + [BAR];
      WithoutAppend(t[..n], [BAR], IsPercent);
      assert [BAR][1..] == "";
    }
  }

  // ---------------------------------------------------------------- separators

  /** Replaces single characters by strings. */
  function Spread(s: string, e: char -> string): string {
    if s == "" then "" else e(s[0]) + Spread(s[1..], e)
  }

  /** Each separator becomes the two placeholder characters. */
  function PlaceSeparator(c: char): string {
    if Separator(c) then "%$" else [c]
  }

  /** The series name goes through a dash substitution first, whose character class contains the bar. */
  function PlaceDash(c: char): string {
    if c == BAR then " - " else [c]
  }

  /** Only characters the filter drops are replaced, and only by such characters. */
  ghost predicate Harmless(e: char -> string) {
    forall c :: e(c) == [c] || (Dropped(c) && e(c) != "" && forall i :: 0 <= i < |e(c)| ==> Dropped(e(c)[i]))
  }

  lemma PlacementsHarmless()
    ensures Harmless(PlaceSeparator) && Harmless(PlaceDash)
  {
    forall c
      ensures PlaceDash(c) == [c] || (Dropped(c) && forall i :: 0 <= i < |PlaceDash(c)| ==> Dropped(PlaceDash(c)[i]))
    {
      assert SINGLES[1] == '-';
    }
  }

  predicate IsHash(c: char) {
    c == '#'
  }

  /** The order of the two substitutions does not matter. */
  lemma {:induction false} SeparateIsSpread(name: string)
    ensures Separate(name) == Spread(Without(name, IsHash), PlaceSeparator)
  {
    if name != "" {
      SeparateIsSpread(name[1..]);
      var rest := Without(name[1..], IsHash);
      if name[0] == '#' {
        assert Without(name, IsHash) == "" + rest == rest;
        assert Separate(name) == "" + Separate(name[1..]) == Separate(name[1..]);
      } else {
        assert ([name[0]] + rest)[1..] == rest;
      }
    }
  }

  lemma {:induction false} NoSeparatorsLeft(s: string)
    ensures forall i :: 0 <= i < |Spread(s, PlaceSeparator)| ==> !Separator(Spread(s, PlaceSeparator)[i])
  {
    if s != "" {
      NoSeparatorsLeft(s[1..]);
    }
  }

  lemma DroppedIsNoLetter(c: char)
    requires Dropped(c)
    ensures !('a' <= LowerChar(c) <= 'z')
  {
    assert forall d :: d in SINGLES ==> d < 'A';
  }

  /** A pattern without characters that are dropped. */
  predicate Solid(p: string) {
    p != "" && forall i :: 0 <= i < |p| ==> !Dropped(p[i])
  }

  lemma WordIsSolid(p: string)
    requires Word(p)
    ensures Solid(p)
  {
    forall i | 0 <= i < 3 ensures !Dropped(p[i]) {
      LetterStays(p[i]);
    }
  }

  lemma DroppedHasNoCase(c: char)
    requires Dropped(c)
    ensures LowerChar(c) == c
  {
    assert forall d :: d in SINGLES ==> d < 'A';
  }

  /** A prefix of kept characters is there after the substitution exactly if it was there before. */
  lemma {:induction false} SpreadPrefix(s: string, e: char -> string, p: string)
    requires Harmless(e) && forall i :: 0 <= i < |p| ==> !Dropped(p[i])
    ensures StartsWith(Lower(Spread(s, e)), p) <==> StartsWith(Lower(s), p)
    ensures StartsWith(Lower(s), p) ==> |Spread(s, e)| >= |p| && Spread(s, e)[|p|..] == Spread(s[|p|..], e)
    decreases |p|
  {
    var t := Spread(s, e);
    if p == "" {
      assert t[0..] == t && s[0..] == s;
    } else if s != "" {
      PrefixStep(s, p);
      PrefixStep(t, p);
      if e(s[0]) == [s[0]] {
        SpreadPrefix(s[1..], e, p[1..]);
        assert t[1..] == Spread(s[1..], e);
        if StartsWith(Lower(s), p) {
          assert s[1..][|p| - 1..] == s[|p|..];
          assert t[|p|..] == t[1..][|p| - 1..];
        }
      } else {
        DroppedHasNoCase(s[0]);
        DroppedHasNoCase(e(s[0])[0]);
        assert t[0] == e(s[0])[0];
      }
    }
  }

  lemma PrefixStep(s: string, p: string)
    requires p != ""
    ensures StartsWith(Lower(s), p) <==> s != "" && LowerChar(s[0]) == p[0] && StartsWith(Lower(s[1..]), p[1..])
  {
    if s != "" {
      assert Lower(s)[1..] == Lower(s[1..]);
      if StartsWith(Lower(s), p) {
        assert Lower(s)[..|p|][0] == LowerChar(s[0]);
        assert Lower(s[1..])[..|p| - 1] == Lower(s)[..|p|][1..];
      }
      if LowerChar(s[0]) == p[0] && StartsWith(Lower(s[1..]), p[1..]) {
        assert Lower(s)[..|p|] == [p[0]] + Lower(s[1..])[..|p| - 1];
      }
    }
  }

  lemma SpreadLead(s: string, e: char -> string, p: string)
    requires Harmless(e) && Word(p)
    ensures Lead(Spread(s, e)) == p <==> Lead(s) == p
    ensures Lead(s) == p ==> |s| >= 3 && |Spread(s, e)| >= 3 && Spread(s, e)[3..] == Spread(s[3..], e)
  {
    WordIsSolid(p);
    SpreadPrefix(s, e, p);
    StartsWithWord(s, p);
    StartsWithWord(Spread(s, e), p);
  }

  /** The filter drops characters that are to be dropped, in front of anything. */
  lemma {:induction false} FilterDropped(front: string, s: string, noAnd: bool, noThe: bool)
    requires forall i :: 0 <= i < |front| ==> Dropped(front[i])
    ensures Filter(front + s, noAnd, noThe) == Filter(s, noAnd, noThe)
  {
    if front == "" {
      assert front + s == s;
    } else {
      var t := front + s;
      FilterDropped(front[1..], s, noAnd, noThe);
      assert t[1..] == front[1..] + s;
      DroppedIsNoLetter(front[0]);
      assert Lead(t)[0] == LowerChar(front[0]);
    }
  }

  /** Harmless substitutions make no difference to the filter. */
  lemma {:induction false} FilterSpread(s: string, e: char -> string, noAnd: bool, noThe: bool)
    requires Harmless(e)
    ensures Filter(Spread(s, e), noAnd, noThe) == Filter(s, noAnd, noThe)
    decreases |s|
  {
    if s != "" {
      SpreadLead(s, e, "and");
      SpreadLead(s, e, "the");
      if (noAnd && Lead(s) == "and") || (noThe && Lead(s) == "the") {
        FilterSpread(s[3..], e, noAnd, noThe);
      } else {
        FilterSpread(s[1..], e, noAnd, noThe);
        if e(s[0]) == [s[0]] {
          assert Spread(s, e)[1..] == Spread(s[1..], e);
        } else {
          FilterDropped(e(s[0]), Spread(s[1..], e), noAnd, noThe);
        }
      }
    }
  }

  // ---------------------------------------------------------------- which patterns are present

  lemma SinglesAreHandlers(c: char)
    ensures c in SINGLES <==> [c] in HANDLERS
  {
    assert HANDLERS[0] == ['/'] && HANDLERS[1] == ['-'] && HANDLERS[2] == [':'] && HANDLERS[3] == [';'];
    assert HANDLERS[4] == ['\''] && HANDLERS[5] == ['"'] && HANDLERS[6] == [','] && HANDLERS[7] == ['&'];
    assert HANDLERS[8] == ['?'] && HANDLERS[9] == ['!'] && HANDLERS[10] == ['+'] && HANDLERS[11] == ['*'];
    assert HANDLERS[12] == ['('] && HANDLERS[13] == [')'];
  }

  lemma HandlersAre(h: string)
    requires h in HANDLERS
    ensures |h| == 1 || (|h| == 6 && h[0] == '\\')
    ensures |h| == 1 ==> h[0] != BAR
  {
  }

  lemma ContainsFirst(s: string, p: string) returns (i: nat)
    requires p != "" && Contains(s, p)
    ensures i < |s| && s[i] == p[0]
  {
    i :| 0 <= i <= |s| && StartsWith(s[i..], p);
    assert s[i..][..|p|][0] == p[0];
  }

  lemma ContainsChar(s: string, i: nat)
    requires i < |s|
    ensures Contains(Lower(s), Lower([s[i]]))
  {
    assert Lower(s)[i..][..1] == Lower([s[i]]);
    assert StartsWith(Lower(s)[i..], Lower([s[i]]));
  }

  /** The name spells out none of the handlers that are escape sequences of six characters. */
  predicate NoEscapes(name: string) {
    SingleChars(Present(HANDLERS, name))
  }

  /** A name without a backslash is one. */
  lemma NoBackslashNoEscapes(name: string)
    requires '\\' !in name
    ensures NoEscapes(name)
  {
    forall h | h in Present(HANDLERS, name) ensures |h| == 1 && h[0] != BAR {
      HandlersAre(h);
      if |h| != 1 {
        var i := ContainsFirst(Lower(name), Lower(h));
      }
    }
  }

  lemma {:induction false} SeparateComes(name: string, i: nat)
    requires i < |Separate(name)|
    ensures Separate(name)[i] == '%' || Separate(name)[i] == '$' || Separate(name)[i] in name
  {
    var first := if Separator(name[0]) then "%$" else if name[0] == '#' then "" else [name[0]];
    if i >= |first| {
      SeparateComes(name[1..], i - |first|);
    } else {
      assert name[0] in name;
    }
  }

  /** Only handlers that occur are swept, which are all that could be met. */
  lemma SweepsAllHandlers(name: string)
    requires NoEscapes(name)
    ensures SweepHandlers(Separate(name), Present(HANDLERS, name)).s == Hand(Separate(name))
  {
    var s := Separate(name);
    HandlersMark(s, Present(HANDLERS, name));
    forall i | 0 <= i < |s| ensures [s[i]] in Present(HANDLERS, name) <==> s[i] in SINGLES {
      SinglesAreHandlers(s[i]);
      if s[i] in SINGLES {
        SeparateComes(name, i);
        NotPlaceholder(s[i]);
        var j :| 0 <= j < |name| && name[j] == s[i];
        ContainsChar(name, j);
      }
    }
  }

  lemma NotPlaceholder(c: char)
    requires c in SINGLES
    ensures c != '%' && c != '$'
  {
  }

  predicate Mentions(name: string, word: string) {
    Contains(Lower(name), Lower(word))
  }

  lemma PresentWords(name: string)
    ensures Present(WORDS, name) ==
            (if Mentions(name, "and") then ["and"] else []) + (if Mentions(name, "the") then ["the"] else [])
  {
    assert WORDS[..1] == ["and"] && WORDS[..1][..0] == [];
    assert Present(WORDS[..1][..0], name) == [];
    assert Present(WORDS[..1], name) == if Mentions(name, "and") then ["and"] else [];
  }

  lemma MarkPresentWords(s: string, noAnd: bool, noThe: bool)
    ensures MarkWords(s, (if noAnd then ["and"] else []) + (if noThe then ["the"] else []))
         == MarkIf(MarkIf(s, "and", noAnd), "the", noThe)
  {
    var first := if noAnd then ["and"] else [];
    var words := first + if noThe then ["the"] else [];
    assert ["and"][..0] == [];
    assert MarkWords(s, first) == MarkIf(s, "and", noAnd);
    if noThe {
      assert words[..|words| - 1] == first;
    } else {
      assert words == first;
    }
  }

  lemma SweepIsOnePass(name: string)
    requires SweepHandlers(Separate(name), Present(HANDLERS, name)).s == Hand(Separate(name))
    ensures var handled := SweepHandlers(Separate(name), Present(HANDLERS, name)).s;
            SweepWords(handled, Present(WORDS, name)).s
            == OnePass(Separate(name), Mentions(name, "and"), Mentions(name, "the"))
  {
    var s := Separate(name);
    PresentWords(name);
    assert forall w :: w in Present(WORDS, name) ==> |w| == 3;
    WordsMark(Hand(s), Present(WORDS, name), 3);
    MarkPresentWords(Hand(s), Mentions(name, "and"), Mentions(name, "the"));
    RoundsAreOnePass(s, Mentions(name, "and"), Mentions(name, "the"));
  }

  // ---------------------------------------------------------------- the comparison key

  lemma {:induction false} WithoutCollapse(s: string)
    ensures Without(Collapse(s), Barely) == Without(s, Barely)
    decreases |s|
  {
    if s != "" {
      WithoutCollapse(s[1..]);
      var rest := Collapse(s[1..]);
      assert ([s[0]] + rest)[1..] == rest;
    }
  }

  lemma {:induction false} WithoutOneByOne(s: string)
    requires ' ' !in s
    ensures Without(Without(Without(s, IsPercent), IsBlank), IsBar) == Without(s, Barely)
  {
    if s != "" {
      assert s[0] in s && forall c :: c in s[1..] ==> c in s;
      WithoutOneByOne(s[1..]);
      var rest := Without(s[1..], IsPercent);
      if !IsPercent(s[0]) {
        assert ([s[0]] + rest)[1..] == rest;
        var more := Without(rest, IsBlank);
        assert ([s[0]] + more)[1..] == more;
      } else {
        assert "" + rest == rest && "" + Without(s[1..], Barely) == Without(s[1..], Barely);
      }
    }
  }

  lemma {:induction false} WithoutComes(s: string, dropped: char -> bool, c: char)
    requires c in Without(s, dropped)
    ensures c in s
  {
    if s != "" && c in Without(s[1..], dropped) {
      WithoutComes(s[1..], dropped, c);
    }
  }

  lemma {:induction false} CollapseComes(s: string, c: char)
    requires c in Collapse(s)
    ensures c in s
    decreases |s|
  {
    if s != "" && c in Collapse(s[1..]) {
      CollapseComes(s[1..], c);
    }
  }

  predicate NoSpaces(s: string) {
    forall c :: c in s ==> !IsSpace(c)
  }

  lemma StripNothing(s: string)
    requires NoSpaces(s)
    ensures Strip(Lower(s)) == Lower(s)
  {
    if s != "" {
      assert s[0] in s && s[|s| - 1] in s;
      assert forall c :: IsSpace(LowerChar(c)) == IsSpace(c);
    }
  }

  /** Dropping the last bar loses nothing that is compared. */
  lemma UnbarredKeeps(u: string)
    ensures Without(Unbarred(u), Barely) == Without(u, Barely)
    ensures forall c :: c in Unbarred(u) ==> c in u
  {
    var v := Unbarred(u);
    if v != u {
      assert u == v + [BAR];
      WithoutAppend(v, [BAR], Barely);
    }
  }

  lemma KeyOf(v: string)
    requires NoSpaces(v)
    ensures MatchKey(Without(v, IsPercent)) == Lower(Without(v, Barely))
  {
    assert ' ' !in v;
    WithoutOneByOne(v);
    forall c | c in Without(v, Barely) ensures c in v {
      WithoutComes(v, Barely, c);
    }
    StripNothing(Without(v, Barely));
  }

  lemma FinishKey(t: string)
    requires NoSpaces(t)
    ensures MatchKey(Finish(t)) == Lower(Without(t, Barely))
  {
    var u := Collapse(t);
    forall c | c in u ensures c in t {
      CollapseComes(t, c);
    }
    WithoutCollapse(t);
    UnbarredKeeps(u);
    KeyOf(Unbarred(u));
  }

  lemma {:induction false} OnePassComes(s: string, noAnd: bool, noThe: bool, c: char)
    requires c in OnePass(s, noAnd, noThe)
    ensures c == BAR || c in s
    decreases |s|
  {
    if s != "" {
      if (noAnd && Lead(s) == "and") || (noThe && Lead(s) == "the") {
        if c in OnePass(s[3..], noAnd, noThe) {
          OnePassComes(s[3..], noAnd, noThe, c);
        }
      } else if c in OnePass(s[1..], noAnd, noThe) {
        OnePassComes(s[1..], noAnd, noThe, c);
      }
    }
  }

  /** What is left of a name. */
  function Spelling(name: string): string {
    Lower(Filter(Without(name, IsHash), Mentions(name, "and"), Mentions(name, "the")))
  }

  lemma OnePassHasNoSpaces(s: string, noAnd: bool, noThe: bool)
    requires forall i :: 0 <= i < |s| ==> !Separator(s[i])
    ensures NoSpaces(OnePass(s, noAnd, noThe))
  {
    forall c | c in OnePass(s, noAnd, noThe) ensures !IsSpace(c) {
      OnePassComes(s, noAnd, noThe, c);
      if c != BAR {
        var i :| 0 <= i < |s| && s[i] == c;
        assert !Separator(s[i]);
      }
    }
  }

  /** What is compared, once the handlers are swept as one would expect. */
  lemma SweptKey(name: string)
    requires SweepHandlers(Separate(name), Present(HANDLERS, name)).s == Hand(Separate(name))
    ensures MatchKey(DynamicReplace(name, HANDLERS, WORDS)) == Spelling(name)
  {
    var noAnd, noThe := Mentions(name, "and"), Mentions(name, "the");
    var s := Separate(name);
    SweepIsOnePass(name);
    SeparateIsSpread(name);
    PlacementsHarmless();
    NoSeparatorsLeft(Without(name, IsHash));
    OnePassHasNoSpaces(s, noAnd, noThe);
    FinishKey(OnePass(s, noAnd, noThe));
    OnePassIsFilter(s, noAnd, noThe);
    FilterSpread(Without(name, IsHash), PlaceSeparator, noAnd, noThe);
  }

  /**
   The sweep is a filter.  For every name that spells out no escape sequence, what matchIT
   compares is the name in lower case without separators, handler characters and number signs,
   and without every "and" if the name mentions "and" and every "the" if it mentions "the".
   */
  lemma SweepIsFilter(name: string)
    requires NoEscapes(name)
    ensures MatchKey(DynamicReplace(name, HANDLERS, WORDS)) == Spelling(name)
  {
    SweepsAllHandlers(name);
    SweptKey(name);
  }

  lemma {:induction false} FilterWithoutWords(s: string)
    ensures Filter(s, false, false) == Without(s, Dropped)
  {
    if s != "" {
      FilterWithoutWords(s[1..]);
    }
  }

  /** A name that mentions neither word loses characters only. */
  lemma UnmentionedWordsStay(name: string)
    requires NoEscapes(name) && !Mentions(name, "and") && !Mentions(name, "the")
    ensures MatchKey(DynamicReplace(name, HANDLERS, WORDS)) == Lower(Without(Without(name, IsHash), Dropped))
  {
    SweepIsFilter(name);
    FilterWithoutWords(Without(name, IsHash));
  }

  lemma ContainsStep(s: string, p: string)
    requires s != "" && p != ""
    ensures Contains(s, p) <==> StartsWith(s, p) || Contains(s[1..], p)
  {
    assert s[0..] == s;
    if i :| 0 <= i <= |s| && StartsWith(s[i..], p) {
      if i > 0 {
        assert s[1..][i - 1..] == s[i..];
      }
    }
    if i :| 0 <= i <= |s[1..]| && StartsWith(s[1..][i..], p) {
      assert s[1..][i..] == s[i + 1..];
    }
  }

  /** A word that begins with none of the letters of another is behind it, if it is anywhere. */
  lemma SkipWord(s: string, p: string, q: string)
    requires Word(p) && Word(q) && Lead(s) == p && q[0] != p[0] && q[0] != p[1] && q[0] != p[2]
    ensures |s| >= 3 && (Contains(Lower(s), q) <==> Contains(Lower(s[3..]), q))
  {
    var low := Lower(s);
    StartsWithWord(s, p);
    assert low[..3] == p && low[0] == p[0] && low[1] == p[1] && low[2] == p[2];
    NotFirst(low, q);
    NotFirst(low[1..], q);
    NotFirst(low[2..], q);
    assert low[1..][1..] == low[2..] && low[2..][1..] == low[3..] == Lower(s[3..]);
  }

  lemma NotFirst(s: string, q: string)
    requires s != "" && q != "" && s[0] != q[0]
    ensures Contains(s, q) <==> Contains(s[1..], q)
  {
    ContainsStep(s, q);
  }

  /** A word that is not swept stays, all three letters of it. */
  lemma KeptWord(s: string, noAnd: bool, noThe: bool)
    requires (Lead(s) == "and" && !noAnd) || (Lead(s) == "the" && !noThe)
    ensures |s| >= 3 && |Filter(s, noAnd, noThe)| == 3 + |Filter(s[3..], noAnd, noThe)|
  {
    assert |s| >= 3 && forall i :: 0 <= i < 3 ==> LowerChar(s[i]) == Lead(s)[i];
    forall i | 0 <= i < 3 ensures !Dropped(s[i]) {
      if Dropped(s[i]) {
        DroppedIsNoLetter(s[i]);
      }
    }
    assert Lead(s[1..]) != "" && Lead(s[1..])[0] == LowerChar(s[1]);
    assert Lead(s[2..]) != "" && Lead(s[2..])[0] == LowerChar(s[2]);
    assert s[1..][1..] == s[2..] && s[2..][1..] == s[3..];
    assert |Filter(s, noAnd, noThe)| == 1 + |Filter(s[1..], noAnd, noThe)|;
    assert |Filter(s[1..], noAnd, noThe)| == 1 + |Filter(s[2..], noAnd, noThe)|;
  }

  /** Each word that the text holds is one of those swept. */
  predicate Covers(s: string, noAnd: bool, noThe: bool) {
    (Mentions(s, "and") ==> noAnd) && (Mentions(s, "the") ==> noThe)
  }

  lemma CoversBehindWord(s: string, noAnd: bool, noThe: bool)
    requires Lead(s) == "and" || Lead(s) == "the"
    ensures |s| >= 3
    ensures Covers(s, noAnd, noThe) <==>
              (if Lead(s) == "and" then noAnd else noThe) && Covers(s[3..], noAnd, noThe)
  {
    WordsAreLower();
    var p, q := Lead(s), if Lead(s) == "and" then "the" else "and";
    SkipWord(s, p, q);
    StartsWithWord(s, p);
    assert Lower(s)[0..] == Lower(s);
    assert Contains(Lower(s), p);
  }

  lemma CoversBehindChar(s: string, noAnd: bool, noThe: bool)
    requires s != "" && Lead(s) != "and" && Lead(s) != "the"
    ensures Covers(s, noAnd, noThe) <==> Covers(s[1..], noAnd, noThe)
  {
    WordsAreLower();
    StartsWithWord(s, "and");
    StartsWithWord(s, "the");
    ContainsStep(Lower(s), "and");
    ContainsStep(Lower(s), "the");
    assert Lower(s)[1..] == Lower(s[1..]);
  }

  /** Filtering with some of the words is filtering with both, or leaves more. */
  lemma {:induction false} FilterExactlyWhen(s: string, noAnd: bool, noThe: bool)
    ensures if Covers(s, noAnd, noThe) then Filter(s, noAnd, noThe) == Filter(s, true, true)
            else |Filter(s, true, true)| < |Filter(s, noAnd, noThe)|
    decreases |s|
  {
    if s == "" {
      assert !Contains(Lower(s), "and") && !Contains(Lower(s), "the");
    } else if Lead(s) == "and" || Lead(s) == "the" {
      CoversBehindWord(s, noAnd, noThe);
      FilterExactlyWhen(s[3..], noAnd, noThe);
      if !(if Lead(s) == "and" then noAnd else noThe) {
        KeptWord(s, noAnd, noThe);
      }
    } else {
      CoversBehindChar(s, noAnd, noThe);
      FilterExactlyWhen(s[1..], noAnd, noThe);
    }
  }

  /**
   Both words are swept from a title everywhere, if and only if the title mentions each word
   that is there once its number signs are dropped.
   */
  lemma SweptEverywhereExactlyWhen(name: string)
    requires NoEscapes(name)
    ensures MatchKey(DynamicReplace(name, HANDLERS, WORDS)) == Lower(Filter(Without(name, IsHash), true, true)) <==>
              && (Mentions(Without(name, IsHash), "and") ==> Mentions(name, "and"))
              && (Mentions(Without(name, IsHash), "the") ==> Mentions(name, "the"))
  {
    SweepIsFilter(name);
    FilterExactlyWhen(Without(name, IsHash), Mentions(name, "and"), Mentions(name, "the"));
  }

  const HIDDEN: string := "a#nd"

  lemma HiddenWord()
    ensures !Mentions(HIDDEN, "and") && !Mentions(HIDDEN, "the") && '\\' !in HIDDEN
    ensures Without(HIDDEN, IsHash) == "and"
  {
    WordsAreLower();
    assert Lower(HIDDEN) == HIDDEN;
    NotFirst(HIDDEN, "the");
    NotFirst(HIDDEN[1..], "the");
    NotFirst(HIDDEN[2..], "the");
    NotFirst(HIDDEN[3..], "the");
    ContainsStep(HIDDEN, "and");
    assert HIDDEN[..3][1] == '#';
    NotFirst(HIDDEN[1..], "and");
    NotFirst(HIDDEN[2..], "and");
    NotFirst(HIDDEN[3..], "and");
    assert HIDDEN[1..][1..] == HIDDEN[2..] && HIDDEN[2..][1..] == HIDDEN[3..] && HIDDEN[3..][1..] == "";
    assert Without(HIDDEN[3..], IsHash) == "d" && Without(HIDDEN[2..], IsHash) == "nd";
  }

  /** In "a#nd" the word comes about only by dropping the number sign: it is compared as "and", not as nothing. */
  lemma HashHidesWord()
    ensures MatchKey(DynamicReplace(HIDDEN, HANDLERS, WORDS)) == "and"
    ensures Lower(Filter(Without(HIDDEN, IsHash), true, true)) == ""
  {
    HiddenWord();
    assert NoEscapes(HIDDEN) by {
      NoBackslashNoEscapes(HIDDEN);
    }
    UnmentionedWordsStay(HIDDEN);
    AndIsFiltered();
    KeptLetters();
    WordsAreLower();
  }

  lemma AndIsFiltered()
    ensures Lower(Filter("and", true, true)) == ""
  {
    WordsAreLower();
    assert "and"[..3] == "and" && Lead("and") == "and" && "and"[3..] == "";
    assert Filter("and", true, true) == Filter("and"[3..], true, true);
  }

  lemma KeptLetters()
    ensures Without("and", Dropped) == "and"
  {
    assert !Dropped('a') && !Dropped('n') && !Dropped('d');
    assert Without("d", Dropped) == "d" && Without("nd", Dropped) == "nd";
  }

  // ---------------------------------------------------------------- the series name

  lemma {:induction false} WithoutHashSpread(name: string)
    ensures Without(Spread(name, PlaceDash), IsHash) == Spread(Without(name, IsHash), PlaceDash)
  {
    if name != "" {
      var rest := Without(name[1..], IsHash);
      WithoutHashSpread(name[1..]);
      WithoutAppend(PlaceDash(name[0]), Spread(name[1..], PlaceDash), IsHash);
      if name[0] == '#' {
        assert Without([name[0]], IsHash) == "" && Without(name, IsHash) == "" + rest == rest;
      } else {
        WithoutNone(PlaceDash(name[0]));
        assert ([name[0]] + rest)[1..] == rest;
      }
    }
  }

  lemma {:induction false} WithoutNone(s: string)
    requires '#' !in s
    ensures Without(s, IsHash) == s
  {
    if s != "" {
      assert s[0] in s && forall c :: c in s[1..] ==> c in s;
      WithoutNone(s[1..]);
      assert s == [s[0]] + s[1..];
    }
  }

  lemma {:induction false} MentionsDropped(front: string, s: string, p: string)
    requires Solid(p) && forall i :: 0 <= i < |front| ==> Dropped(front[i])
    ensures Contains(Lower(front + s), p) <==> Contains(Lower(s), p)
  {
    if front == "" {
      assert front + s == s;
    } else {
      var t := front + s;
      MentionsDropped(front[1..], s, p);
      ContainsStep(Lower(t), p);
      assert Lower(t)[1..] == Lower(front[1..] + s);
      DroppedHasNoCase(front[0]);
      PrefixStep(t, p);
    }
  }

  lemma {:induction false} MentionsSpread(s: string, e: char -> string, p: string)
    requires Harmless(e) && Solid(p)
    ensures Contains(Lower(Spread(s, e)), p) <==> Contains(Lower(s), p)
  {
    if s != "" {
      var t := Spread(s, e);
      MentionsSpread(s[1..], e, p);
      ContainsStep(Lower(s), p);
      assert Lower(s)[1..] == Lower(s[1..]);
      if e(s[0]) == [s[0]] {
        SpreadPrefix(s, e, p);
        ContainsStep(Lower(t), p);
        assert t[1..] == Spread(s[1..], e) && Lower(t)[1..] == Lower(t[1..]);
      } else {
        MentionsDropped(e(s[0]), Spread(s[1..], e), p);
        DroppedHasNoCase(s[0]);
        PrefixStep(s, p);
      }
    }
  }

  lemma WordsAreLower()
    ensures Word("and") && Word("the") && Lower("and") == "and" && Lower("the") == "the"
  {
  }

  /** The dash substitution of the series path makes no difference to the comparison either. */
  lemma SeriesSweepIsFilter(name: string)
    requires NoEscapes(name)
    ensures MatchKey(DynamicReplace(Spread(name, PlaceDash), HANDLERS, WORDS))
         == Spelling(name)
  {
    var series := Spread(name, PlaceDash);
    PlacementsHarmless();
    WordsAreLower();
    NoNewEscapes(name);
    SweepIsFilter(series);
    WithoutHashSpread(name);
    WordIsSolid("and");
    WordIsSolid("the");
    MentionsSpread(name, PlaceDash, "and");
    MentionsSpread(name, PlaceDash, "the");
    FilterSpread(Without(name, IsHash), PlaceDash, Mentions(name, "and"), Mentions(name, "the"));
  }

  lemma NoNewEscapes(name: string)
    requires NoEscapes(name)
    ensures NoEscapes(Spread(name, PlaceDash))
  {
    PlacementsHarmless();
    forall h | h in Present(HANDLERS, Spread(name, PlaceDash)) ensures |h| == 1 && h[0] != BAR {
      HandlersAre(h);
      if |h| > 1 {
        EscapesAreSolid(h);
        MentionsSpread(name, PlaceDash, Lower(h));
      }
    }
  }

  lemma EscapesAreSolid(h: string)
    requires h in HANDLERS && |h| > 1
    ensures Solid(Lower(h))
  {
  }

  /** A watched title and a file's series name are taken for the same exactly when their filtered spellings agree. */
  lemma TitlesMatchExactlyWhen(watched: string, series: string)
    requires NoEscapes(watched) && NoEscapes(series)
    ensures (MatchKey(DynamicReplace(watched, HANDLERS, WORDS))
            == MatchKey(DynamicReplace(Spread(series, PlaceDash), HANDLERS, WORDS)))
            <==> Spelling(watched) == Spelling(series)
  {
    SweepIsFilter(watched);
    SeriesSweepIsFilter(series);
  }
}
