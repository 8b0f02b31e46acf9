/**
 The legacy option text that provider entries are stored as (parse_provider_extras,
 serialize_provider_extras): all fields of all entries in one ", " separated list.  The text
 does not say how many fields an entry has, so the reader tries both widths and insists that
 exactly one of them makes sense.
 */
module ProviderCodec {
  import opened Options
  import opened Providers
  import opened Text

  // ---------------------------------------------------------------- reading

  const TRUE_WORDS: seq<string> := ["1", "true", "yes", "on"]
  const FALSE_WORDS: seq<string> := ["0", "false", "no", "off"]

  predicate IsBoolean(s: string) {
    Lower(Strip(s)) in TRUE_WORDS || Lower(Strip(s)) in FALSE_WORDS
  }

  function ReadBoolean(s: string): bool {
    Lower(Strip(s)) in TRUE_WORDS
  }

  /** _provider_entry_is_structurally_valid on a group of fields. */
  predicate WellFormed(entry: seq<string>) {
    && (|entry| == 6 || |entry| == 7)
    && IsBoolean(entry[2]) && IsBoolean(entry[5])
    && (|entry| == 7 ==> ParseInt(entry[6]).Some?)
  }

  /** The fields divide into valid entries of this width. */
  predicate Fits(parts: seq<string>, width: nat)
    requires width > 0
  {
    parts == [] || (|parts| >= width && WellFormed(parts[..width]) && Fits(parts[width..], width))
  }

  function ReadEntry(entry: seq<string>): Entry
    requires WellFormed(entry)
  {
    Entry(Fields(entry[0], entry[1], ReadBoolean(entry[2]), Some(entry[3]), entry[4], ReadBoolean(entry[5])),
          if |entry| == 7 then ParseInt(entry[6]) else None)
  }

  function ReadAll(parts: seq<string>, width: nat): seq<Entry>
    requires width > 0 && Fits(parts, width)
  {
    if parts == [] then [] else [ReadEntry(parts[..width])] + ReadAll(parts[width..], width)
  }

  /** parse_provider_extras on stored text; None where it raises ValueError. */
  function Parse(text: string): Option<seq<Entry>> {
    if text == "" || text == "None" then Some([])
    else
      var parts := Split(text);
      if Fits(parts, 6) == Fits(parts, 7) then None
      else Some(ReadAll(parts, if Fits(parts, 6) then 6 else 7))
  }

  // ---------------------------------------------------------------- writing

  function WriteBoolean(b: bool): string {
    if b then "1" else "0"
  }

  /** category.replace(",", "#") */
  function Packed(category: string): (packed: string)
    ensures |packed| == |category|
    ensures ',' !in packed
  {
    seq(|category|, i requires 0 <= i < |category| => if category[i] == ',' then '#' else category[i])
  }

  function WriteEntry(e: Entry): (parts: seq<string>)
    ensures |parts| == Width(e)
  {
    var f := e.fields;
    [f.name, f.host, WriteBoolean(f.verify), f.credential.GetOr(""), Packed(f.category), WriteBoolean(f.enabled)]
    + (if e.id.Some? then [IntText(e.id.value)] else [])
  }

  function Width(e: Entry): nat {
    if e.id.Some? then 7 else 6
  }

  function Flatten(entries: seq<Entry>): seq<string> {
    if entries == [] then [] else WriteEntry(entries[0]) + Flatten(entries[1..])
  }

  /** serialize_provider_extras; None where a field contains the delimiter and it raises. */
  function Serialize(entries: seq<Entry>): Option<string> {
    if exists p :: p in Flatten(entries) && Contains(p, DELIMITER) then None
    else Some(Join(Flatten(entries)))
  }

  // ---------------------------------------------------------------- the round trip

  /** What storing an entry loses: an absent credential becomes empty, category commas become '#'. */
  function Normal(e: Entry): Entry {
    e.(fields := e.fields.(credential := Some(e.fields.credential.GetOr("")), category := Packed(e.fields.category)))
  }

  function NormalAll(entries: seq<Entry>): (r: seq<Entry>)
    ensures |r| == |entries| && forall i :: 0 <= i < |r| ==> r[i] == Normal(entries[i])
  {
    seq(|entries|, i requires 0 <= i < |entries| => Normal(entries[i]))
  }

  predicate Uniform(entries: seq<Entry>, width: nat) {
    (width == 6 || width == 7) && forall e :: e in entries ==> Width(e) == width
  }

  /** The stored text also reads as a list of entries of the other width. */
  predicate Ambiguous(entries: seq<Entry>, width: nat)
    requires Uniform(entries, width)
  {
    entries != [] && Fits(Flatten(entries), 13 - width)
  }

  lemma BooleanRoundTrip(b: bool)
    ensures IsBoolean(WriteBoolean(b)) && ReadBoolean(WriteBoolean(b)) == b
  {
    var s := WriteBoolean(b);
    assert Strip(s) == s && Lower(s) == s;
    assert TRUE_WORDS[0] == "1" && FALSE_WORDS[0] == "0";
    assert forall w :: w in TRUE_WORDS ==> w != "0";
  }

  lemma EntryRoundTrip(e: Entry)
    ensures WellFormed(WriteEntry(e)) && ReadEntry(WriteEntry(e)) == Normal(e)
  {
    BooleanRoundTrip(e.fields.verify);
    BooleanRoundTrip(e.fields.enabled);
    if e.id.Some? {
      IntRoundTrip(e.id.value);
    }
  }

  /** Grouping the flattened fields at the right width gives the entries back. */
  lemma {:induction false} GroupsOfFlatten(entries: seq<Entry>, width: nat)
    requires Uniform(entries, width)
    ensures Fits(Flatten(entries), width) && ReadAll(Flatten(entries), width) == NormalAll(entries)
  {
    if entries != [] {
      var first, rest := WriteEntry(entries[0]), Flatten(entries[1..]);
      GroupsOfFlatten(entries[1..], width);
      EntryRoundTrip(entries[0]);
      assert |first| == width;
      assert (first + rest)[..width] == first && (first + rest)[width..] == rest;
      assert NormalAll(entries) == [Normal(entries[0])] + NormalAll(entries[1..]);
    }
  }

  lemma TextOfEntries(entries: seq<Entry>)
    requires entries != [] && Serialize(entries).Some?
    ensures Split(Serialize(entries).value) == Flatten(entries)
    ensures Serialize(entries).value != "" && Serialize(entries).value != "None"
  {
    var parts := Flatten(entries);
    assert parts == WriteEntry(entries[0]) + Flatten(entries[1..]);
    SplitJoin(parts);
    var text := Join(parts);
    assert text[|parts[0]|] == ',';
    assert forall i :: 0 <= i < |"None"| ==> "None"[i] != ',';
  }

  /**
   Stored entries of one width read back in normal form, exactly unless the text is ambiguous:
   then reading raises and every provider of the option is lost to the caller.
   */
  lemma StoredEntriesRoundTrip(entries: seq<Entry>, width: nat)
    requires Uniform(entries, width) && Serialize(entries).Some?
    ensures Parse(Serialize(entries).value) == if Ambiguous(entries, width) then None else Some(NormalAll(entries))
  {
    if entries != [] {
      TextOfEntries(entries);
      GroupsOfFlatten(entries, width);
    }
  }

  /** Field by field: only an absent credential and the commas of a category come back as something else. */
  lemma StoredFields(entries: seq<Entry>, width: nat, i: nat)
    requires Uniform(entries, width) && Serialize(entries).Some? && i < |entries|
    requires Parse(Serialize(entries).value).Some?
    ensures var read := Parse(Serialize(entries).value).value;
            && |read| == |entries| && read[i].id == entries[i].id
            && var f, g := entries[i].fields, read[i].fields;
               && g.name == f.name && g.host == f.host && g.verify == f.verify && g.enabled == f.enabled
               && g.credential == Some(if f.credential.Some? then f.credential.value else "")
               && |g.category| == |f.category|
               && forall k :: 0 <= k < |f.category| ==>
                    g.category[k] == if f.category[k] == ',' then '#' else f.category[k]
  {
    StoredEntriesRoundTrip(entries, width);
  }

  lemma {:induction false} FitsLength(parts: seq<string>, width: nat)
    requires width > 0 && Fits(parts, width)
    ensures exists n: nat :: |parts| == n * width
  {
    if parts == [] {
      assert |parts| == 0 * width;
    } else {
      FitsLength(parts[width..], width);
      var n: nat :| |parts[width..]| == n * width;
      assert |parts| == (n + 1) * width;
    }
  }

  lemma {:induction false} FlattenLength(entries: seq<Entry>, width: nat)
    requires Uniform(entries, width)
    ensures |Flatten(entries)| == |entries| * width
  {
    if entries != [] {
      FlattenLength(entries[1..], width);
    }
  }

  /**
   Entries with ids are ambiguous only when there are six of them or a multiple, and the second
   host, among others, is a boolean word.
   */
  lemma AmbiguousHosts(entries: seq<Entry>)
    requires Uniform(entries, 7) && Ambiguous(entries, 7)
    ensures |entries| >= 6 && |entries| % 6 == 0
    ensures IsBoolean(entries[1].fields.host)
  {
    var parts := Flatten(entries);
    FlattenLength(entries, 7);
    FitsLength(parts, 6);
    FlattenTwo(entries);
    SecondGroup(parts, WriteEntry(entries[0]), WriteEntry(entries[1]), Flatten(entries[1..][1..]));
  }

  lemma FlattenTwo(entries: seq<Entry>)
    requires |entries| >= 2
    ensures Flatten(entries) == WriteEntry(entries[0]) + (WriteEntry(entries[1]) + Flatten(entries[1..][1..]))
  {
    assert Flatten(entries[1..]) == WriteEntry(entries[1..][0]) + Flatten(entries[1..][1..]);
  }

  lemma SecondGroup(parts: seq<string>, first: seq<string>, second: seq<string>, rest: seq<string>)
    requires parts == first + (second + rest) && |first| == 7 && |second| == 7 && Fits(parts, 6)
    ensures IsBoolean(second[1])
  {
    var tail := parts[6..];
    assert tail[..6][2] == parts[8] == second[1];
    assert Fits(tail, 6) && WellFormed(tail[..6]);
  }

  const ONES: Entry := Entry(Fields("1", "1", true, Some("1"), "1", true), Some(1))

  lemma OnesText()
    ensures WriteEntry(ONES) == ["1", "1", "1", "1", "1", "1", "1"]
    ensures WellFormed(["1", "1", "1", "1", "1", "1"])
    ensures !Contains("1", DELIMITER)
  {
    IntRoundTrip(1);
    BooleanRoundTrip(true);
    assert Packed("1") == "1";
    assert IntText(1) == "1";
    assert forall i :: 0 <= i <= 1 ==> |"1"[i..]| < 2;
  }

  /** Ambiguity is possible: six entries whose fields are all "1" are written but not read back. */
  lemma SixEntriesCanBeLost()
    ensures var entries := [ONES, ONES, ONES, ONES, ONES, ONES];
            Serialize(entries).Some? && Parse(Serialize(entries).value) == None
  {
    var entries := [ONES, ONES, ONES, ONES, ONES, ONES];
    OnesText();
    FlattenOnes(entries);
    FlattenLength(entries, 7);
    var parts := Flatten(entries);
    assert forall p :: p in parts ==> p == "1";
    OnesFit(parts, 7);
    StoredEntriesRoundTrip(entries, 7);
  }

  lemma {:induction false} FlattenOnes(entries: seq<Entry>)
    requires forall i :: 0 <= i < |entries| ==> entries[i] == ONES
    ensures forall p :: p in Flatten(entries) ==> p == "1"
  {
    if entries != [] {
      OnesText();
      FlattenOnes(entries[1..]);
      assert Flatten(entries) == WriteEntry(ONES) + Flatten(entries[1..]);
    }
  }

  lemma {:induction false} OnesFit(parts: seq<string>, n: nat)
    requires |parts| == n * 6 && forall p :: p in parts ==> p == "1"
    ensures Fits(parts, 6)
  {
    if n > 0 {
      OnesText();
      forall i | 0 <= i < 6 ensures parts[i] == "1" {
        assert parts[i] in parts;
      }
      assert parts[..6] == ["1", "1", "1", "1", "1", "1"];
      forall p | p in parts[6..] ensures p == "1" {
        assert p in parts;
      }
      OnesFit(parts[6..], n - 1);
    }
  }

  // ---------------------------------------------------------------- any text

  /** The words that switch a provider or its certificate check on, and those that switch it off. */
  predicate OnWord(s: string) {
    var word := Lower(Strip(s));
    word == "1" || word == "true" || word == "yes" || word == "on"
  }

  predicate OffWord(s: string) {
    var word := Lower(Strip(s));
    word == "0" || word == "false" || word == "no" || word == "off"
  }

  lemma BooleanWords(s: string)
    ensures IsBoolean(s) <==> OnWord(s) || OffWord(s)
    ensures ReadBoolean(s) <==> OnWord(s)
  {
    assert TRUE_WORDS[0] == "1" && TRUE_WORDS[1] == "true" && TRUE_WORDS[2] == "yes" && TRUE_WORDS[3] == "on";
    assert FALSE_WORDS[0] == "0" && FALSE_WORDS[1] == "false" && FALSE_WORDS[2] == "no" && FALSE_WORDS[3] == "off";
  }

  /** The fields from `at` on are those of one entry. */
  predicate GroupAt(parts: seq<string>, at: nat, width: nat)
    requires (width == 6 || width == 7) && at + width <= |parts|
  {
    && (OnWord(parts[at + 2]) || OffWord(parts[at + 2])) && (OnWord(parts[at + 5]) || OffWord(parts[at + 5]))
    && (width == 7 ==> ParseInt(parts[at + 6]).Some?)
  }

  /** The entry has exactly these fields. */
  predicate EntryAt(e: Entry, parts: seq<string>, at: nat, width: nat)
    requires (width == 6 || width == 7) && at + width <= |parts|
  {
    && e.fields.name == parts[at] && e.fields.host == parts[at + 1]
    && (e.fields.verify <==> OnWord(parts[at + 2])) && e.fields.credential == Some(parts[at + 3])
    && e.fields.category == parts[at + 4] && (e.fields.enabled <==> OnWord(parts[at + 5]))
    && e.id == if width == 7 then ParseInt(parts[at + 6]) else None
  }

  predicate Multiple(n: nat, width: nat)
    requires width == 6 || width == 7
  {
    if width == 6 then n % 6 == 0 else n % 7 == 0
  }

  /** All fields divide into entries of this width. */
  ghost predicate Divides(parts: seq<string>, width: nat)
    requires width == 6 || width == 7
  {
    Multiple(|parts|, width) && AllGroups(parts, width)
  }

  ghost predicate AllGroups(parts: seq<string>, width: nat)
    requires width == 6 || width == 7
  {
    forall at: nat {:trigger GroupAt(parts, at, width)} ::
      Multiple(at, width) && at + width <= |parts| ==> GroupAt(parts, at, width)
  }

  lemma FirstGroup(parts: seq<string>, width: nat)
    requires (width == 6 || width == 7) && |parts| >= width
    ensures WellFormed(parts[..width]) <==> GroupAt(parts, 0, width)
  {
    BooleanWords(parts[2]);
    BooleanWords(parts[5]);
  }

  lemma NextMultiple(at: nat, width: nat)
    requires width == 6 || width == 7
    ensures Multiple(at + width, width) <==> Multiple(at, width)
    ensures Multiple(at, width) && at > 0 ==> at >= width
  {
  }

  lemma ShiftedGroup(parts: seq<string>, at: nat, width: nat)
    requires (width == 6 || width == 7) && at + width + width <= |parts|
    ensures GroupAt(parts[width..], at, width) <==> GroupAt(parts, at + width, width)
  {
  }

  lemma GroupsInTurn(parts: seq<string>, width: nat)
    requires (width == 6 || width == 7) && |parts| >= width
    ensures AllGroups(parts, width) <==> GroupAt(parts, 0, width) && AllGroups(parts[width..], width)
  {
    if AllGroups(parts, width) {
      assert GroupAt(parts, 0, width);
      forall at: nat | Multiple(at, width) && at + width <= |parts[width..]|
        ensures GroupAt(parts[width..], at, width)
      {
        NextMultiple(at, width);
        ShiftedGroup(parts, at, width);
      }
    } else if GroupAt(parts, 0, width) && AllGroups(parts[width..], width) {
      GroupsFollow(parts, width);
    }
  }

  lemma GroupsFollow(parts: seq<string>, width: nat)
    requires (width == 6 || width == 7) && |parts| >= width
    requires GroupAt(parts, 0, width) && AllGroups(parts[width..], width)
    ensures AllGroups(parts, width)
  {
    forall at: nat | Multiple(at, width) && at + width <= |parts| ensures GroupAt(parts, at, width) {
      if at > 0 {
        NextMultiple(at, width);
        var before := at - width;
        NextMultiple(before, width);
        assert GroupAt(parts[width..], before, width);
        ShiftedGroup(parts, before, width);
      }
    }
  }

  lemma {:induction false} FitsIsDivides(parts: seq<string>, width: nat)
    requires width == 6 || width == 7
    ensures Fits(parts, width) <==> Divides(parts, width)
  {
    if |parts| >= width {
      var rest := parts[width..];
      FitsIsDivides(rest, width);
      FirstGroup(parts, width);
      GroupsInTurn(parts, width);
      NextMultiple(|rest|, width);
    } else {
      NextMultiple(|parts|, width);
    }
  }

  lemma {:induction false} EntriesLength(parts: seq<string>, width: nat)
    requires (width == 6 || width == 7) && Fits(parts, width)
    ensures |parts| == if width == 6 then 6 * |ReadAll(parts, width)| else 7 * |ReadAll(parts, width)|
  {
    if parts != [] {
      EntriesLength(parts[width..], width);
    }
  }

  /** Where entry i begins. */
  function StartOf(i: nat, width: nat): nat
    requires width == 6 || width == 7
  {
    if width == 6 then 6 * i else 7 * i
  }

  /** Entry i is read from the fields that begin at `at`. */
  ghost predicate ReadFrom(parts: seq<string>, width: nat, i: nat, at: nat)
    requires width > 0 && Fits(parts, width)
  {
    && i < |ReadAll(parts, width)| && at + width <= |parts|
    && WellFormed(parts[at..at + width]) && ReadAll(parts, width)[i] == ReadEntry(parts[at..at + width])
  }

  lemma {:induction false} EntriesAt(parts: seq<string>, width: nat, i: nat)
    requires (width == 6 || width == 7) && Fits(parts, width) && i < |ReadAll(parts, width)|
    requires StartOf(i, width) + width <= |parts|
    ensures ReadFrom(parts, width, i, StartOf(i, width))
  {
    FirstEntry(parts, width);
    if i > 0 {
      EntriesAt(parts[width..], width, i - 1);
      NextEntry(parts, width, i, StartOf(i - 1, width));
    }
  }

  lemma SameFields(parts: seq<string>, at: nat, width: nat)
    requires at + width + width <= |parts|
    ensures parts[width..][at..at + width] == parts[at + width..at + width + width]
  {
  }

  lemma NextEntry(parts: seq<string>, width: nat, i: nat, at: nat)
    requires width > 0 && Fits(parts, width) && parts != [] && i > 0 && ReadFrom(parts[width..], width, i - 1, at)
    ensures ReadFrom(parts, width, i, at + width)
  {
    FirstEntry(parts, width);
    SameFields(parts, at, width);
  }

  lemma FirstEntry(parts: seq<string>, width: nat)
    requires width > 0 && Fits(parts, width) && parts != []
    ensures ReadAll(parts, width) == [ReadEntry(parts[..width])] + ReadAll(parts[width..], width)
  {
  }

  lemma EntryOfFields(parts: seq<string>, at: nat, width: nat)
    requires (width == 6 || width == 7) && at + width <= |parts| && WellFormed(parts[at..at + width])
    ensures EntryAt(ReadEntry(parts[at..at + width]), parts, at, width)
  {
    BooleanWords(parts[at + 2]);
    BooleanWords(parts[at + 5]);
  }

  /**
   Reading any text, also one edited by hand.  It succeeds exactly if the fields divide into valid
   entries of six fields or into ones of seven, but not both ways; and then entry i has the fields
   of group i, one by one.
   */
  lemma ParsesExactlyWhen(text: string)
    requires text != "" && text != "None"
    ensures Parse(text).Some? <==> (Divides(Split(text), 6) <==> !Divides(Split(text), 7))
    ensures Parse(text).Some? ==>
              var entries, parts, width := Parse(text).value, Split(text), if Divides(Split(text), 6) then 6 else 7;
              && |parts| == StartOf(|entries|, width)
              && forall i :: 0 <= i < |entries| ==>
                   StartOf(i, width) + width <= |parts| && EntryAt(entries[i], parts, StartOf(i, width), width)
  {
    var parts := Split(text);
    FitsIsDivides(parts, 6);
    FitsIsDivides(parts, 7);
    if Parse(text).Some? {
      var width := if Fits(parts, 6) then 6 else 7;
      var entries := ReadAll(parts, width);
      EntriesLength(parts, width);
      forall i | 0 <= i < |entries|
        ensures StartOf(i, width) + width <= |parts| && EntryAt(entries[i], parts, StartOf(i, width), width)
      {
        EntriesAt(parts, width, i);
        EntryOfFields(parts, StartOf(i, width), width);
      }
    }
  }

  /** A category is never the reason that entries cannot be stored, every other text field is. */
  predicate HasDelimiter(f: Fields) {
    Contains(f.name, DELIMITER) || Contains(f.host, DELIMITER) || Contains(f.credential.GetOr(""), DELIMITER)
  }

  lemma NoDelimiterWithoutComma(s: string)
    requires ',' !in s
    ensures !Contains(s, DELIMITER)
  {
    forall i | 0 <= i <= |s| ensures !StartsWith(s[i..], DELIMITER) {
      if i < |s| {
        assert s[i] in s && s[i..][0] == s[i];
      }
    }
  }

  lemma EntryDelimiter(e: Entry)
    ensures (exists p :: p in WriteEntry(e) && Contains(p, DELIMITER)) <==> HasDelimiter(e.fields)
  {
    var f, parts := e.fields, WriteEntry(e);
    NoDelimiterWithoutComma(WriteBoolean(f.verify));
    NoDelimiterWithoutComma(WriteBoolean(f.enabled));
    NoDelimiterWithoutComma(Packed(f.category));
    if e.id.Some? {
      IntRoundTrip(e.id.value);
    }
    assert parts[0] == f.name && parts[1] == f.host && parts[3] == f.credential.GetOr("");
    assert parts[0] in parts && parts[1] in parts && parts[3] in parts;
  }

  /** Entries are stored unless a name, a host or a credential contains the delimiter. */
  lemma {:induction false} SerializesExactlyWhen(entries: seq<Entry>)
    ensures Serialize(entries).Some? <==> forall i :: 0 <= i < |entries| ==> !HasDelimiter(entries[i].fields)
  {
    if entries != [] {
      var first, rest := WriteEntry(entries[0]), Flatten(entries[1..]);
      SerializesExactlyWhen(entries[1..]);
      EntryDelimiter(entries[0]);
      assert forall p :: p in first + rest <==> p in first || p in rest;
      assert forall i :: 0 < i < |entries| ==> entries[i] == entries[1..][i - 1];
    }
  }
}
