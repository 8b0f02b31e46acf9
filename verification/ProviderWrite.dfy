/**
 _prepare_provider_extras_for_write: decode, number, validate, encode and serialise the two
 provider lists in turn, with one token cache, one id counter and one set of seen identities.
 */
module ProviderWrite {
  import opened Options
  import opened Providers
  import opened Credentials
  import opened ProviderIds
  import opened Text
  import Codec = ProviderCodec

  /** What the first list leaves for the second. */
  datatype Work = Work(cache: Cache, nextId: int, ids: set<int>, names: set<string>, nonce: nat)

  datatype Field = Field(runtime: seq<Provider>, stored: seq<Provider>, text: string, after: Work)

  /** One of the two lists; None where a step raises. */
  function PrepareField(c: Cipher, entries: seq<Entry>, w: Work): Option<Field> {
    var d := DecodeAll(c, entries, w.cache);
    if d.None? then None
    else
      var a := Assign(d.value.entries, w.nextId, w.ids);
      if a.None? then None
      else
        var runtime := a.value.providers;
        var names := CanonicalNames(runtime);
        if !NamesValid(names, w.names) then None
        else
          var s := Seal(c, runtime, d.value.cache, w.nonce);
          if s.None? then None
          else
            var text := Codec.Serialize(AsEntries(s.value.stored));
            if text.None? then None
            else Some(Field(runtime, s.value.stored, text.value,
                            Work(s.value.cache, a.value.nextId, a.value.seen, w.names + Members(names), s.value.nonce)))
  }

  datatype Prepared = Prepared(newznab: Field, torznab: Field)

  function Prepare(c: Cipher, newznabs: seq<Entry>, torznabs: seq<Entry>, w: Work): Option<Prepared> {
    var n := PrepareField(c, newznabs, w);
    if n.None? then None
    else
      var t := PrepareField(c, torznabs, n.value.after);
      if t.None? then None else Some(Prepared(n.value, t.value))
  }

  /** Both runtime lists, in the order they are prepared in. */
  function Runtime(p: Prepared): seq<Provider> {
    p.newznab.runtime + p.torznab.runtime
  }

  function Active(providers: seq<Provider>): set<string> {
    set i | 0 <= i < |providers| && !Blank(providers[i].fields.credential) :: providers[i].fields.credential.value
  }

  /** active_token_cache: what the committed runtime keeps of the cache. */
  function Tokens(p: Prepared): Cache {
    map text | text in Active(Runtime(p)) && text in p.torznab.after.cache :: p.torznab.after.cache[text]
  }

  method PrepareList(c: Cipher, entries: seq<Entry>, w: Work) returns (r: Option<Field>)
    ensures r == PrepareField(c, entries, w)
  {
    var decoding := DecodeProviderEntries(c, entries, w.cache);
    if decoding.None? {
      return None;
    }
    var allocation := AssignProviderIds(decoding.value.entries, w.nextId, w.ids);
    if allocation.None? {
      return None;
    }
    var names := ValidateProviderNames(allocation.value.providers, w.names);
    if names.None? {
      return None;
    }
    var sealing := SealProviders(c, allocation.value.providers, decoding.value.cache, w.nonce);
    if sealing.None? {
      return None;
    }
    var text := Codec.Serialize(AsEntries(sealing.value.stored));
    if text.None? {
      return None;
    }
    var after :=
      Work(sealing.value.cache, allocation.value.nextId, allocation.value.seen, names.value, sealing.value.nonce);
    return Some(Field(allocation.value.providers, sealing.value.stored, text.value, after));
  }

  method ActiveCredentials(runtime: seq<Provider>) returns (active: set<string>)
    ensures active == Active(runtime)
  {
    active := {};
    for k := 0 to |runtime|
      invariant active == Active(runtime[..k])
    {
      assert runtime[..k + 1] == runtime[..k] + [runtime[k]];
      ActiveMore(runtime[..k], runtime[k]);
      if !Blank(runtime[k].fields.credential) {
        active := active + {runtime[k].fields.credential.value};
      }
    }
    assert runtime[..|runtime|] == runtime;
  }

  method PrepareProviderExtras(c: Cipher, newznabs: seq<Entry>, torznabs: seq<Entry>, w: Work)
    returns (r: Option<Prepared>, tokens: Cache, hasCredentials: bool)
    ensures r == Prepare(c, newznabs, torznabs, w)
    ensures r.Some? ==> tokens == Tokens(r.value) && (hasCredentials <==> Active(Runtime(r.value)) != {})
  {
    tokens, hasCredentials := map[], false;
    var n := PrepareList(c, newznabs, w);
    if n.None? {
      return None, tokens, hasCredentials;
    }
    var t := PrepareList(c, torznabs, n.value.after);
    if t.None? {
      return None, tokens, hasCredentials;
    }
    r := Some(Prepared(n.value, t.value));
    var active := ActiveCredentials(Runtime(r.value));
    hasCredentials := active != {};
    tokens := map text | text in active && text in t.value.after.cache :: t.value.after.cache[text];
  }

  lemma ActiveMore(providers: seq<Provider>, p: Provider)
    ensures Active(providers + [p]) ==
            Active(providers) + if Blank(p.fields.credential) then {} else {p.fields.credential.value}
  {
    var all := providers + [p];
    assert all[|providers|] == p;
    assert forall i :: 0 <= i < |providers| ==> all[i] == providers[i];
  }

  // ---------------------------------------------------------------- identities

  lemma PreparedIds(c: Cipher, newznabs: seq<Entry>, torznabs: seq<Entry>, w: Work)
    requires Prepare(c, newznabs, torznabs, w).Some?
    ensures var p := Prepare(c, newznabs, torznabs, w).value;
            && DistinctIds(Runtime(p)) && IdsAvoid(Runtime(p), w.ids)
            && p.torznab.after.ids == w.ids + IdSet(Runtime(p))
  {
    var n := PrepareField(c, newznabs, w).value;
    var dn := DecodeAll(c, newznabs, w.cache).value.entries;
    var dt := DecodeAll(c, torznabs, n.after.cache).value.entries;
    AssignInTurn(dn, dt, w.nextId, w.ids);
    AssignedIds(dn + dt, w.nextId, w.ids);
  }

  lemma PreparedNames(c: Cipher, newznabs: seq<Entry>, torznabs: seq<Entry>, w: Work)
    requires Prepare(c, newznabs, torznabs, w).Some?
    ensures NamesValid(CanonicalNames(Runtime(Prepare(c, newznabs, torznabs, w).value)), w.names)
  {
    var n := PrepareField(c, newznabs, w).value;
    var t := PrepareField(c, torznabs, n.after).value;
    CanonicalInTurn(n.runtime, t.runtime);
    NamesValidInTurn(CanonicalNames(n.runtime), CanonicalNames(t.runtime), w.names);
  }

  lemma FieldKeepsIds(c: Cipher, entries: seq<Entry>, w: Work)
    requires PrepareField(c, entries, w).Some?
    ensures var runtime := PrepareField(c, entries, w).value.runtime;
            && |runtime| == |entries|
            && forall i :: 0 <= i < |entries| && entries[i].id.Some? ==> runtime[i].id == entries[i].id.value
  {
    DecodeKeepsIds(c, entries, w.cache);
    AssignedIds(DecodeAll(c, entries, w.cache).value.entries, w.nextId, w.ids);
  }

  /**
   A preparation that does not raise yields identities a projection can rely on: over both lists
   the ids are distinct and not reserved, the names are distinct up to case and not reserved, and
   stored ids are kept.
   */
  lemma PreparedIdentities(c: Cipher, newznabs: seq<Entry>, torznabs: seq<Entry>, w: Work)
    requires Prepare(c, newznabs, torznabs, w).Some?
    ensures var p := Prepare(c, newznabs, torznabs, w).value;
            && DistinctIds(Runtime(p)) && IdsAvoid(Runtime(p), w.ids)
            && NamesValid(CanonicalNames(Runtime(p)), w.names)
            && |p.newznab.runtime| == |newznabs| && |p.torznab.runtime| == |torznabs|
            && (forall i :: 0 <= i < |newznabs| && newznabs[i].id.Some? ==>
                  p.newznab.runtime[i].id == newznabs[i].id.value)
            && (forall i :: 0 <= i < |torznabs| && torznabs[i].id.Some? ==>
                  p.torznab.runtime[i].id == torznabs[i].id.value)
  {
    PreparedIds(c, newznabs, torznabs, w);
    PreparedNames(c, newznabs, torznabs, w);
    FieldKeepsIds(c, newznabs, w);
    FieldKeepsIds(c, torznabs, PrepareField(c, newznabs, w).value.after);
  }

  // ---------------------------------------------------------------- storage

  lemma FieldStored(c: Cipher, entries: seq<Entry>, w: Work)
    requires Sound(c) && Trusted(c, w.cache) && PrepareField(c, entries, w).Some?
    ensures var f := PrepareField(c, entries, w).value;
            Trusted(c, f.after.cache) && StoredUnder(f.stored, f.runtime, f.after.cache)
  {
    var d := DecodeAll(c, entries, w.cache).value;
    var f := PrepareField(c, entries, w).value;
    DecodeKeepsTrust(c, entries, w.cache);
    SealedUnderCache(c, f.runtime, d.cache, w.nonce);
  }

  /**
   What is stored decodes to exactly the runtime lists, whatever cache the reader starts from;
   no reading will ask for a migration; and the committed tokens are trusted and cover every
   credential in use.
   */
  lemma StorageIsFaithful(c: Cipher, newznabs: seq<Entry>, torznabs: seq<Entry>, w: Work, cache: Cache)
    requires Sound(c) && Trusted(c, w.cache) && Prepare(c, newznabs, torznabs, w).Some?
    ensures var p := Prepare(c, newznabs, torznabs, w).value;
            var n := DecodeAll(c, AsEntries(p.newznab.stored), cache);
            var t := DecodeAll(c, AsEntries(p.torznab.stored), cache);
            && n.Some? && n.value.entries == AsEntries(p.newznab.runtime) && !n.value.migrate
            && t.Some? && t.value.entries == AsEntries(p.torznab.runtime) && !t.value.migrate
            && Trusted(c, Tokens(p)) && Tokens(p).Keys == Active(Runtime(p))
  {
    var p := Prepare(c, newznabs, torznabs, w).value;
    FieldStored(c, newznabs, w);
    FieldStored(c, torznabs, p.newznab.after);
    StorageDecodesToRuntime(c, p.newznab.stored, p.newznab.runtime, cache, p.newznab.after.cache);
    StorageDecodesToRuntime(c, p.torznab.stored, p.torznab.runtime, cache, p.torznab.after.cache);
    TokensCover(c, newznabs, torznabs, w);
  }

  /** No plaintext credential reaches the file. */
  lemma OnlyTokensAreStored(c: Cipher, newznabs: seq<Entry>, torznabs: seq<Entry>, w: Work, s: Provider)
    requires Sound(c) && Trusted(c, w.cache) && Prepare(c, newznabs, torznabs, w).Some?
    requires var p := Prepare(c, newznabs, torznabs, w).value; s in p.newznab.stored || s in p.torznab.stored
    ensures Blank(s.fields.credential) || IsToken(s.fields.credential.value)
  {
    var p := Prepare(c, newznabs, torznabs, w).value;
    FieldStored(c, newznabs, w);
    FieldStored(c, torznabs, p.newznab.after);
    var f := if s in p.newznab.stored then p.newznab else p.torznab;
    var i :| 0 <= i < |f.stored| && f.stored[i] == s;
    StoredDecodes(c, f.runtime[i], f.after.cache);
  }

  lemma TokensCover(c: Cipher, newznabs: seq<Entry>, torznabs: seq<Entry>, w: Work)
    requires Sound(c) && Trusted(c, w.cache) && Prepare(c, newznabs, torznabs, w).Some?
    ensures var p := Prepare(c, newznabs, torznabs, w).value;
            Tokens(p).Keys == Active(Runtime(p)) && Trusted(c, Tokens(p))
  {
    var p := Prepare(c, newznabs, torznabs, w).value;
    FieldStored(c, newznabs, w);
    FieldStored(c, torznabs, p.newznab.after);
    var d := DecodeAll(c, torznabs, p.newznab.after.cache).value;
    DecodeKeepsKeys(c, torznabs, p.newznab.after.cache);
    DecodeKeepsTrust(c, torznabs, p.newznab.after.cache);
    SealedUnderCache(c, p.torznab.runtime, d.cache, p.newznab.after.nonce);
    forall text | text in Active(Runtime(p)) ensures text in p.torznab.after.cache {
      var i :| 0 <= i < |Runtime(p)| && !Blank(Runtime(p)[i].fields.credential)
          && Runtime(p)[i].fields.credential.value == text;
      if i < |p.newznab.runtime| {
        assert Covered(p.newznab.after.cache, p.newznab.runtime[i].fields.credential);
      } else {
        assert Covered(p.torznab.after.cache, p.torznab.runtime[i - |p.newznab.runtime|].fields.credential);
      }
    }
  }

  /** A list whose identities are settled and whose credentials are plain and cached is stored from the cache. */
  lemma FieldSettled(c: Cipher, runtime: seq<Provider>, stored: seq<Provider>, w: Work)
    requires Shrinks(c) && AllPlain(runtime) && StoredUnder(stored, runtime, w.cache)
    requires DistinctIds(runtime) && IdsAvoid(runtime, w.ids) && NamesValid(CanonicalNames(runtime), w.names)
    requires Codec.Serialize(AsEntries(stored)).Some?
    ensures PrepareField(c, AsEntries(runtime), w) ==
            Some(Field(runtime, stored, Codec.Serialize(AsEntries(stored)).value,
                       Work(w.cache, w.nextId, w.ids + IdSet(runtime),
                            w.names + Members(CanonicalNames(runtime)), w.nonce)))
  {
    RuntimeIsFixed(c, runtime, w.cache);
    AssignSettled(runtime, w.nextId, w.ids);
    SealFromCache(c, runtime, stored, w.cache, w.nonce);
  }

  /** The committed tokens are those of the credentials in use, and of no others. */
  lemma TokensAreInUse(c: Cipher, newznabs: seq<Entry>, torznabs: seq<Entry>, w: Work, text: string)
    requires Sound(c) && Trusted(c, w.cache) && Prepare(c, newznabs, torznabs, w).Some?
    ensures var p := Prepare(c, newznabs, torznabs, w).value;
            && (text in Tokens(p) <==> InUse(p.newznab.runtime, text) || InUse(p.torznab.runtime, text))
            && (text in Tokens(p) ==> c.decrypt(Tokens(p)[text]) == Some(text))
  {
    var p := Prepare(c, newznabs, torznabs, w).value;
    TokensCover(c, newznabs, torznabs, w);
    ActiveInUse(Runtime(p), text);
    InUseOfBoth(p.newznab.runtime, p.torznab.runtime, text);
  }

  lemma ActiveInUse(providers: seq<Provider>, text: string)
    ensures text in Active(providers) <==> InUse(providers, text)
  {
  }

  lemma InUseOfBoth(first: seq<Provider>, second: seq<Provider>, text: string)
    ensures InUse(first + second, text) <==> InUse(first, text) || InUse(second, text)
  {
    var all := first + second;
    if i :| 0 <= i < |first| && first[i].fields.credential == Some(text) {
      assert all[i] == first[i];
    }
    if i :| 0 <= i < |second| && second[i].fields.credential == Some(text) {
      assert all[|first| + i] == second[i];
    }
  }

  predicate InUse(providers: seq<Provider>, text: string) {
    text != "" && text != "None" && exists i :: 0 <= i < |providers| && providers[i].fields.credential == Some(text)
  }

  // ---------------------------------------------------------------- when a preparation raises

  /** Encryption does not fail, and no token contains the delimiter of the option text. */
  ghost predicate Reliable(c: Cipher) {
    && (forall text, nonce :: c.encrypt(text, nonce).Some?)
    && (forall token :: c.decrypt(token).Some? && IsToken(token) ==> !Contains(token, DELIMITER))
  }

  /** The entry as it is in memory. */
  function InMemory(c: Cipher, e: Entry): Entry {
    if Plain(e.fields.credential) then e
    else e.(fields := WithCredential(e.fields, c.decrypt(e.fields.credential.value)))
  }

  function AllInMemory(c: Cipher, entries: seq<Entry>): (r: seq<Entry>)
    ensures |r| == |entries| && forall i :: 0 <= i < |r| ==> r[i] == InMemory(c, entries[i])
  {
    seq(|entries|, i requires 0 <= i < |entries| => InMemory(c, entries[i]))
  }

  function EntryNames(entries: seq<Entry>): (names: seq<string>)
    ensures |names| == |entries| && forall i :: 0 <= i < |names| ==> names[i] == Canonical(entries[i].fields)
  {
    seq(|entries|, i requires 0 <= i < |entries| => Canonical(entries[i].fields))
  }

  predicate Delimited(f: Fields) {
    Contains(f.name, DELIMITER) || Contains(f.host, DELIMITER)
  }

  /** Every credential can be read, the ids and names are valid, and no name or host has the delimiter. */
  predicate Preparable(c: Cipher, entries: seq<Entry>, w: Work) {
    && AllReadable(c, entries) && Assign(AllInMemory(c, entries), w.nextId, w.ids).Some?
    && NamesValid(EntryNames(entries), w.names) && NoneDelimited(entries)
  }

  predicate AllReadable(c: Cipher, entries: seq<Entry>) {
    forall i :: 0 <= i < |entries| ==> Readable(c, entries[i].fields.credential)
  }

  predicate NoneDelimited(entries: seq<Entry>) {
    forall i :: 0 <= i < |entries| ==> !Delimited(entries[i].fields)
  }

  lemma DecodedInMemory(c: Cipher, entries: seq<Entry>, cache: Cache)
    requires DecodeAll(c, entries, cache).Some?
    ensures DecodeAll(c, entries, cache).value.entries == AllInMemory(c, entries)
  {
    DecodeLength(c, entries, cache);
    forall i | 0 <= i < |entries|
      ensures DecodeAll(c, entries, cache).value.entries[i] == InMemory(c, entries[i])
    {
      DecodedEntries(c, entries, cache, i);
    }
  }

  lemma AssignedFields(c: Cipher, entries: seq<Entry>, w: Work)
    requires Assign(AllInMemory(c, entries), w.nextId, w.ids).Some?
    ensures var runtime := Assign(AllInMemory(c, entries), w.nextId, w.ids).value.providers;
            && CanonicalNames(runtime) == EntryNames(entries)
            && (NoneDelimited(AsEntries(runtime)) <==> NoneDelimited(entries))
  {
    AssignedIds(AllInMemory(c, entries), w.nextId, w.ids);
    var runtime := Assign(AllInMemory(c, entries), w.nextId, w.ids).value.providers;
    forall i | 0 <= i < |entries|
      ensures Canonical(runtime[i].fields) == Canonical(entries[i].fields)
      ensures Delimited(AsEntries(runtime)[i].fields) <==> Delimited(entries[i].fields)
    {
      assert runtime[i].fields == InMemory(c, entries[i]).fields;
    }
  }

  /** A stored copy has the delimiter in a field exactly if its name or its host has it. */
  lemma StoredDelimiter(c: Cipher, p: Provider, cache: Cache)
    requires Reliable(c) && Trusted(c, cache) && Covered(cache, p.fields.credential)
    ensures Codec.HasDelimiter(StoredAs(p, cache).fields) <==> Delimited(p.fields)
  {
    var stored := StoredAs(p, cache).fields.credential.GetOr("");
    if Blank(p.fields.credential) {
      Codec.NoDelimiterWithoutComma(stored);
    } else {
      assert stored == cache[p.fields.credential.value];
    }
  }

  lemma SerializesStored(c: Cipher, runtime: seq<Provider>, stored: seq<Provider>, cache: Cache)
    requires Reliable(c) && Trusted(c, cache) && StoredUnder(stored, runtime, cache)
    ensures Codec.Serialize(AsEntries(stored)).Some? <==> NoneDelimited(AsEntries(runtime))
  {
    Codec.SerializesExactlyWhen(AsEntries(stored));
    forall i | 0 <= i < |runtime|
      ensures Codec.HasDelimiter(AsEntries(stored)[i].fields) <==> Delimited(AsEntries(runtime)[i].fields)
    {
      StoredDelimiter(c, runtime[i], cache);
    }
  }

  lemma SealsAndSerializes(c: Cipher, runtime: seq<Provider>, cache: Cache, nonce: nat)
    requires Sound(c) && Reliable(c) && Trusted(c, cache)
    ensures var s := Seal(c, runtime, cache, nonce);
            && s.Some? && Trusted(c, s.value.cache)
            && (Codec.Serialize(AsEntries(s.value.stored)).Some? <==> NoneDelimited(AsEntries(runtime)))
  {
    SealRaises(c, runtime, cache, nonce);
    SealedUnderCache(c, runtime, cache, nonce);
    var s := Seal(c, runtime, cache, nonce).value;
    SerializesStored(c, runtime, s.stored, s.cache);
  }

  lemma AssignedPreparesExactlyWhen(c: Cipher, entries: seq<Entry>, w: Work)
    requires Sound(c) && Reliable(c) && Trusted(c, w.cache) && DecodeAll(c, entries, w.cache).Some?
    requires DecodeAll(c, entries, w.cache).value.entries == AllInMemory(c, entries)
    requires Assign(AllInMemory(c, entries), w.nextId, w.ids).Some?
    ensures PrepareField(c, entries, w).Some? <==> NamesValid(EntryNames(entries), w.names) && NoneDelimited(entries)
    ensures PrepareField(c, entries, w).Some? ==>
              AfterField(c, entries, w, PrepareField(c, entries, w).value.after)
  {
    var d := DecodeAll(c, entries, w.cache).value;
    var runtime := Assign(d.entries, w.nextId, w.ids).value.providers;
    DecodeKeepsTrust(c, entries, w.cache);
    AssignedFields(c, entries, w);
    SealsAndSerializes(c, runtime, d.cache, w.nonce);
  }

  /** What a prepared list leaves for the next one. */
  ghost predicate AfterField(c: Cipher, entries: seq<Entry>, w: Work, after: Work)
    requires Assign(AllInMemory(c, entries), w.nextId, w.ids).Some?
  {
    var a := Assign(AllInMemory(c, entries), w.nextId, w.ids).value;
    && after.nextId == a.nextId && after.ids == a.seen
    && after.names == w.names + Members(EntryNames(entries)) && Trusted(c, after.cache)
  }

  lemma FieldPreparesExactlyWhen(c: Cipher, entries: seq<Entry>, w: Work)
    requires Sound(c) && Reliable(c) && Trusted(c, w.cache)
    ensures PrepareField(c, entries, w).Some? <==> Preparable(c, entries, w)
    ensures PrepareField(c, entries, w).Some? ==>
              AfterField(c, entries, w, PrepareField(c, entries, w).value.after)
  {
    DecodesExactlyWhen(c, entries, w.cache);
    if DecodeAll(c, entries, w.cache).Some? {
      DecodedInMemory(c, entries, w.cache);
      if Assign(AllInMemory(c, entries), w.nextId, w.ids).Some? {
        AssignedPreparesExactlyWhen(c, entries, w);
      }
    }
  }

  lemma InMemoryInTurn(c: Cipher, first: seq<Entry>, second: seq<Entry>)
    ensures AllInMemory(c, first + second) == AllInMemory(c, first) + AllInMemory(c, second)
    ensures EntryNames(first + second) == EntryNames(first) + EntryNames(second)
  {
  }

  lemma ReadableInTurn(c: Cipher, first: seq<Entry>, second: seq<Entry>)
    ensures AllReadable(c, first + second) <==> AllReadable(c, first) && AllReadable(c, second)
  {
    var both := first + second;
    assert forall i :: 0 <= i < |first| ==> both[i] == first[i];
    assert forall i :: 0 <= i < |second| ==> both[|first| + i] == second[i];
    assert forall i :: |first| <= i < |both| ==> both[i] == second[i - |first|];
  }

  lemma NoneDelimitedInTurn(first: seq<Entry>, second: seq<Entry>)
    ensures NoneDelimited(first + second) <==> NoneDelimited(first) && NoneDelimited(second)
  {
    var both := first + second;
    assert forall i :: 0 <= i < |first| ==> both[i] == first[i];
    assert forall i :: 0 <= i < |second| ==> both[|first| + i] == second[i];
    assert forall i :: |first| <= i < |both| ==> both[i] == second[i - |first|];
  }

  lemma PreparableInTurn(c: Cipher, first: seq<Entry>, second: seq<Entry>, w: Work)
    ensures Preparable(c, first + second, w) ==> Preparable(c, first, w)
    ensures forall after :: Preparable(c, first, w) && AfterField(c, first, w, after) ==>
              (Preparable(c, first + second, w) <==> Preparable(c, second, after))
  {
    InMemoryInTurn(c, first, second);
    ReadableInTurn(c, first, second);
    NoneDelimitedInTurn(first, second);
    AssignInTurn(AllInMemory(c, first), AllInMemory(c, second), w.nextId, w.ids);
    NamesValidInTurn(EntryNames(first), EntryNames(second), w.names);
  }

  /** Nothing but these conditions, over both lists together, makes a preparation raise. */
  lemma PreparesExactlyWhen(c: Cipher, newznabs: seq<Entry>, torznabs: seq<Entry>, w: Work)
    requires Sound(c) && Reliable(c) && Trusted(c, w.cache)
    ensures Prepare(c, newznabs, torznabs, w).Some? <==> Preparable(c, newznabs + torznabs, w)
  {
    FieldPreparesExactlyWhen(c, newznabs, w);
    PreparableInTurn(c, newznabs, torznabs, w);
    if PrepareField(c, newznabs, w).Some? {
      var after := PrepareField(c, newznabs, w).value.after;
      assert AfterField(c, newznabs, w, after);
      FieldPreparesExactlyWhen(c, torznabs, after);
    }
  }

  // ---------------------------------------------------------------- writing again

  /** The state the next write of the committed providers starts from. */
  function Again(p: Prepared, w: Work, nextId: int, nonce: nat): Work {
    Work(Tokens(p), nextId, w.ids, w.names, nonce)
  }

  /** Every token in the Newznab option is the one the cache has committed for its credential. */
  predicate NewznabTokensCurrent(p: Prepared) {
    StoredUnder(p.newznab.stored, p.newznab.runtime, Tokens(p))
  }

  lemma TorznabStoredUnderTokens(c: Cipher, newznabs: seq<Entry>, torznabs: seq<Entry>, w: Work)
    requires Sound(c) && Trusted(c, w.cache) && Prepare(c, newznabs, torznabs, w).Some?
    ensures var p := Prepare(c, newznabs, torznabs, w).value;
            StoredUnder(p.torznab.stored, p.torznab.runtime, Tokens(p))
  {
    var p := Prepare(c, newznabs, torznabs, w).value;
    FieldStored(c, newznabs, w);
    FieldStored(c, torznabs, p.newznab.after);
    TokensCover(c, newznabs, torznabs, w);
    forall i | 0 <= i < |p.torznab.runtime|
      ensures Covered(Tokens(p), p.torznab.runtime[i].fields.credential)
      ensures p.torznab.stored[i] == StoredAs(p.torznab.runtime[i], Tokens(p))
    {
      var credential := p.torznab.runtime[i].fields.credential;
      if !Blank(credential) {
        assert Runtime(p)[|p.newznab.runtime| + i] == p.torznab.runtime[i];
        assert credential.value in Active(Runtime(p));
      }
    }
  }

  /** The lists of two preparations agree, in memory and in the file. */
  predicate SameLists(p: Prepared, q: Prepared) {
    && p.newznab.runtime == q.newznab.runtime && p.torznab.runtime == q.torznab.runtime
    && p.newznab.stored == q.newznab.stored && p.torznab.stored == q.torznab.stored
    && p.newznab.text == q.newznab.text && p.torznab.text == q.torznab.text
  }

  lemma IdentitiesInTurn(c: Cipher, newznabs: seq<Entry>, torznabs: seq<Entry>, w: Work)
    requires Prepare(c, newznabs, torznabs, w).Some?
    ensures var p := Prepare(c, newznabs, torznabs, w).value;
            var n, t := p.newznab.runtime, p.torznab.runtime;
            && DistinctIds(n) && IdsAvoid(n, w.ids) && NamesValid(CanonicalNames(n), w.names)
            && DistinctIds(t) && IdsAvoid(t, w.ids + IdSet(n))
            && NamesValid(CanonicalNames(t), w.names + Members(CanonicalNames(n)))
  {
    var p := Prepare(c, newznabs, torznabs, w).value;
    PreparedIds(c, newznabs, torznabs, w);
    DistinctSplit(p.newznab.runtime, p.torznab.runtime, w.ids);
  }

  lemma WritesTheSame(c: Cipher, newznabs: seq<Entry>, torznabs: seq<Entry>, w: Work, nextId: int, nonce: nat)
    requires Sound(c) && Shrinks(c) && Trusted(c, w.cache) && Prepare(c, newznabs, torznabs, w).Some?
    requires var p := Prepare(c, newznabs, torznabs, w).value;
             AllPlain(p.newznab.runtime) && AllPlain(p.torznab.runtime) && NewznabTokensCurrent(p)
    ensures var p := Prepare(c, newznabs, torznabs, w).value;
            var q := Prepare(c, AsEntries(p.newznab.runtime), AsEntries(p.torznab.runtime), Again(p, w, nextId, nonce));
            q.Some? && SameLists(p, q.value) && q.value.torznab.after.nonce == nonce
  {
    var p := Prepare(c, newznabs, torznabs, w).value;
    var n, t := p.newznab.runtime, p.torznab.runtime;
    IdentitiesInTurn(c, newznabs, torznabs, w);
    FieldSettled(c, n, p.newznab.stored, Again(p, w, nextId, nonce));
    TorznabStoredUnderTokens(c, newznabs, torznabs, w);
    FieldSettled(c, t, p.torznab.stored,
                 Work(Tokens(p), nextId, w.ids + IdSet(n), w.names + Members(CanonicalNames(n)), nonce));
  }

  lemma SameListsArePlain(c: Cipher, newznabs: seq<Entry>, torznabs: seq<Entry>, w: Work, nextId: int, nonce: nat)
    requires Sound(c) && Shrinks(c) && Trusted(c, w.cache) && Prepare(c, newznabs, torznabs, w).Some?
    requires var p := Prepare(c, newznabs, torznabs, w).value;
             var q := Prepare(c, AsEntries(p.newznab.runtime), AsEntries(p.torznab.runtime),
                              Again(p, w, nextId, nonce));
             q.Some? && SameLists(p, q.value)
    ensures var p := Prepare(c, newznabs, torznabs, w).value;
            AllPlain(p.newznab.runtime) && AllPlain(p.torznab.runtime) && NewznabTokensCurrent(p)
  {
    var p := Prepare(c, newznabs, torznabs, w).value;
    var again := Again(p, w, nextId, nonce);
    var q := Prepare(c, AsEntries(p.newznab.runtime), AsEntries(p.torznab.runtime), again).value;
    SettledIsPlain(c, p.newznab.runtime, again);
    SettledIsPlain(c, p.torznab.runtime, q.newznab.after);
    TokensCover(c, newznabs, torznabs, w);
    RuntimeIsFixed(c, p.newznab.runtime, again.cache);
    SealedUnderCache(c, p.newznab.runtime, again.cache, nonce);
    forall i | 0 <= i < |p.newznab.runtime|
      ensures Covered(Tokens(p), p.newznab.runtime[i].fields.credential)
      ensures p.newznab.stored[i] == StoredAs(p.newznab.runtime[i], Tokens(p))
    {
      var credential := p.newznab.runtime[i].fields.credential;
      if !Blank(credential) {
        assert Runtime(p)[i] == p.newznab.runtime[i];
        assert credential.value in Active(Runtime(p));
      }
    }
  }

  /** A list that is prepared into itself holds plain credentials only. */
  lemma SettledIsPlain(c: Cipher, runtime: seq<Provider>, w: Work)
    requires Shrinks(c) && PrepareField(c, AsEntries(runtime), w).Some?
    requires PrepareField(c, AsEntries(runtime), w).value.runtime == runtime
    ensures AllPlain(runtime)
  {
    var d := DecodeAll(c, AsEntries(runtime), w.cache).value;
    DecodeKeepsIds(c, AsEntries(runtime), w.cache);
    AssignedIds(d.entries, w.nextId, w.ids);
    assert d.entries == AsEntries(runtime);
    RuntimeIsFixed(c, runtime, w.cache);
  }

  /**
   On the inputs: for each credential in use in the Newznab list, no Torznab entry brings another
   token for it, as the last one in the list, than the one cached after the first list.
   */
  predicate TorznabTokensAgree(c: Cipher, p: Prepared, torznabs: seq<Entry>) {
    forall text :: text in Active(p.newznab.runtime) ==>
      var last := LastToken(c, torznabs, text);
      last.None? || (text in p.newznab.after.cache && last.value == p.newznab.after.cache[text])
  }

  /** What is cached after the first list: its own last token, or what was cached before. */
  lemma FirstListCaches(c: Cipher, newznabs: seq<Entry>, w: Work, text: string)
    requires Sound(c) && Trusted(c, w.cache) && PrepareField(c, newznabs, w).Some?
    ensures var cache, last := PrepareField(c, newznabs, w).value.after.cache, LastToken(c, newznabs, text);
            && (last.Some? ==> text in cache && cache[text] == last.value)
            && (last.None? && text in w.cache ==> text in cache && cache[text] == w.cache[text])
  {
    var d := DecodeAll(c, newznabs, w.cache).value;
    var f := PrepareField(c, newznabs, w).value;
    DecodedToken(c, newznabs, w.cache, text);
    DecodeKeepsTrust(c, newznabs, w.cache);
    SealedUnderCache(c, f.runtime, d.cache, w.nonce);
  }

  /** The token committed for a credential of the first list. */
  lemma CommittedToken(c: Cipher, newznabs: seq<Entry>, torznabs: seq<Entry>, w: Work, text: string)
    requires Sound(c) && Trusted(c, w.cache) && Prepare(c, newznabs, torznabs, w).Some?
    requires text in Active(Prepare(c, newznabs, torznabs, w).value.newznab.runtime)
    ensures var p := Prepare(c, newznabs, torznabs, w).value;
            && text in p.newznab.after.cache && text in Tokens(p)
            && Tokens(p)[text] == LastToken(c, torznabs, text).GetOr(p.newznab.after.cache[text])
  {
    var p := Prepare(c, newznabs, torznabs, w).value;
    var d := DecodeAll(c, torznabs, p.newznab.after.cache).value;
    FieldStored(c, newznabs, w);
    var i :| 0 <= i < |p.newznab.runtime| && !Blank(p.newznab.runtime[i].fields.credential)
             && p.newznab.runtime[i].fields.credential.value == text;
    assert Covered(p.newznab.after.cache, p.newznab.runtime[i].fields.credential);
    assert Runtime(p)[i] == p.newznab.runtime[i];
    TokensCover(c, newznabs, torznabs, w);
    DecodedToken(c, torznabs, p.newznab.after.cache, text);
    DecodeKeepsTrust(c, torznabs, p.newznab.after.cache);
    SealedUnderCache(c, p.torznab.runtime, d.cache, p.newznab.after.nonce);
  }

  /** The Newznab tokens are current exactly when the Torznab list agrees with them. */
  lemma CurrentExactlyWhen(c: Cipher, newznabs: seq<Entry>, torznabs: seq<Entry>, w: Work)
    requires Sound(c) && Trusted(c, w.cache) && Prepare(c, newznabs, torznabs, w).Some?
    ensures var p := Prepare(c, newznabs, torznabs, w).value;
            NewznabTokensCurrent(p) <==> TorznabTokensAgree(c, p, torznabs)
  {
    var p := Prepare(c, newznabs, torznabs, w).value;
    var n := p.newznab;
    FieldStored(c, newznabs, w);
    forall i | 0 <= i < |n.runtime| && !Blank(n.runtime[i].fields.credential)
      ensures var text := n.runtime[i].fields.credential.value;
              && text in Active(n.runtime) && text in n.after.cache && text in Tokens(p)
              && n.stored[i] == StoredAs(n.runtime[i], n.after.cache)
              && Tokens(p)[text] == LastToken(c, torznabs, text).GetOr(n.after.cache[text])
    {
      var text := n.runtime[i].fields.credential.value;
      assert text in Active(n.runtime);
      CommittedToken(c, newznabs, torznabs, w, text);
    }
    TokensAgree(n, Tokens(p));
  }

  /** A list stored under one cache is stored under another exactly if they agree on its credentials. */
  lemma TokensAgree(f: Field, tokens: Cache)
    requires StoredUnder(f.stored, f.runtime, f.after.cache)
    requires forall text :: text in Active(f.runtime) ==> text in f.after.cache && text in tokens
    ensures StoredUnder(f.stored, f.runtime, tokens) <==>
            forall text :: text in Active(f.runtime) ==> tokens[text] == f.after.cache[text]
  {
    forall i | 0 <= i < |f.runtime|
      ensures Covered(tokens, f.runtime[i].fields.credential)
      ensures f.stored[i] == StoredAs(f.runtime[i], tokens) <==>
              Blank(f.runtime[i].fields.credential)
              || tokens[f.runtime[i].fields.credential.value] == f.after.cache[f.runtime[i].fields.credential.value]
    {
      if !Blank(f.runtime[i].fields.credential) {
        assert f.runtime[i].fields.credential.value in Active(f.runtime);
      }
    }
    if StoredUnder(f.stored, f.runtime, tokens) {
      forall text | text in Active(f.runtime) ensures tokens[text] == f.after.cache[text] {
        var i :| 0 <= i < |f.runtime| && !Blank(f.runtime[i].fields.credential)
                 && f.runtime[i].fields.credential.value == text;
        assert f.stored[i] == StoredAs(f.runtime[i], tokens);
      }
    }
  }

  /**
   Writing unchanged providers again changes nothing, encrypts nothing and cannot fail, exactly
   when no plaintext credential looks encoded and no Torznab entry brought another token for a
   credential that the Newznab list uses.
   */
  lemma SecondWriteIsStable(c: Cipher, newznabs: seq<Entry>, torznabs: seq<Entry>, w: Work, nextId: int, nonce: nat)
    requires Sound(c) && Shrinks(c) && Trusted(c, w.cache) && Prepare(c, newznabs, torznabs, w).Some?
    ensures var p := Prepare(c, newznabs, torznabs, w).value;
            var q := Prepare(c, AsEntries(p.newznab.runtime), AsEntries(p.torznab.runtime), Again(p, w, nextId, nonce));
            q.Some? && SameLists(p, q.value) <==>
              AllPlain(p.newznab.runtime) && AllPlain(p.torznab.runtime) && TorznabTokensAgree(c, p, torznabs)
  {
    CurrentExactlyWhen(c, newznabs, torznabs, w);
    var p := Prepare(c, newznabs, torznabs, w).value;
    var q := Prepare(c, AsEntries(p.newznab.runtime), AsEntries(p.torznab.runtime), Again(p, w, nextId, nonce));
    if q.Some? && SameLists(p, q.value) {
      SameListsArePlain(c, newznabs, torznabs, w, nextId, nonce);
    }
    if AllPlain(p.newznab.runtime) && AllPlain(p.torznab.runtime) && NewznabTokensCurrent(p) {
      WritesTheSame(c, newznabs, torznabs, w, nextId, nonce);
    }
  }

  /** The second condition holds whenever the Torznab entries come in as plaintext, as from the settings form. */
  lemma PlaintextKeepsTokensCurrent(c: Cipher, newznabs: seq<Entry>, torznabs: seq<Entry>, w: Work)
    requires Sound(c) && Trusted(c, w.cache) && Prepare(c, newznabs, torznabs, w).Some?
    requires NoTokens(torznabs)
    ensures NewznabTokensCurrent(Prepare(c, newznabs, torznabs, w).value)
  {
    CurrentExactlyWhen(c, newznabs, torznabs, w);
  }

  // ---------------------------------------------------------------- two tokens for one credential

  predicate NoDelimiter(f: Fields) {
    !Contains(f.name, DELIMITER) && !Contains(f.host, DELIMITER) && !Contains(Codec.Packed(f.category), DELIMITER)
  }

  /** One stored entry, as it is read from a file. */
  function Sealed(f: Fields, token: string, id: int): seq<Entry> {
    [Entry(WithCredential(f, Some(token)), Some(id))]
  }

  lemma ShortText(s: string)
    requires |s| < |DELIMITER|
    ensures !Contains(s, DELIMITER)
  {
  }

  lemma OneEntryText(f: Fields, token: string, id: int)
    requires NoDelimiter(f) && !Contains(token, DELIMITER)
    ensures Codec.Serialize(Sealed(f, token, id)).Some?
  {
    var e := Entry(WithCredential(f, Some(token)), Some(id));
    assert [e][1..] == [] && Codec.Flatten([e][1..]) == [];
    assert Codec.Flatten([e]) == Codec.WriteEntry(e);
    IntRoundTrip(id);
    ShortText(Codec.WriteBoolean(f.verify));
    ShortText(Codec.WriteBoolean(f.enabled));
  }

  lemma OneTokenDecodes(c: Cipher, e: Entry, token: string, text: string, cache: Cache)
    requires IsToken(token) && token != "None" && c.decrypt(token) == Some(text)
    requires e.fields.credential == Some(token)
    ensures DecodeAll(c, [e], cache) ==
            Some(Decoding([e.(fields := WithCredential(e.fields, Some(text)))], cache[text := token], false))
  {
    assert token[..|TOKEN_PREFIX|] == TOKEN_PREFIX && token != "";
    assert [e][..0] == [];
    assert DecodeAll(c, [e][..0], cache) == Some(Decoding([], cache, false));
    var r := Decoded(Some(text), Some(token), false);
    assert Decode(c, Some(token)) == Some(r);
    var d := DecodeOne(Decoding([], cache, false), e, r);
    assert d.entries == [e.(fields := WithCredential(e.fields, Some(text)))];
  }

  /** A list of one stored entry, step by step. */
  lemma OneTokenField(c: Cipher, f: Fields, token: string, text: string, id: int, w: Work)
    requires IsToken(token) && token != "None" && c.decrypt(token) == Some(text) && !Blank(Some(text))
    requires id !in w.ids && Canonical(f) != "" && Canonical(f) !in w.names
    requires NoDelimiter(f) && !Contains(token, DELIMITER)
    ensures var r := PrepareField(c, Sealed(f, token, id), w);
            && r.Some? && r.value.runtime == [Provider(WithCredential(f, Some(text)), id)]
            && r.value.after.cache == w.cache[text := token]
            && r.value.after.ids == w.ids + {id} && r.value.after.names == w.names + {Canonical(f)}
  {
    var entries := Sealed(f, token, id);
    var plain := [Provider(WithCredential(f, Some(text)), id)];
    var cache := w.cache[text := token];
    OneTokenDecodes(c, entries[0], token, text, w.cache);
    assert AsEntries(plain) == [entries[0].(fields := WithCredential(entries[0].fields, Some(text)))];
    AssignSettled(plain, w.nextId, w.ids);
    assert plain[..0] == [] && IdSet(plain[..0]) == {} && IdSet(plain) == {id};
    var names := CanonicalNames(plain);
    assert names == [Canonical(f)];
    OneNameValid(Canonical(f), w.names);
    assert Members(names) == {Canonical(f)} by { assert names[0] == Canonical(f); }
    var stored := [Provider(WithCredential(f, Some(token)), id)];
    assert StoredUnder(stored, plain, cache);
    SealFromCache(c, plain, stored, cache, w.nonce);
    assert AsEntries(stored) == entries;
    OneEntryText(f, token, id);
  }

  /**
   A Newznab and a Torznab entry carry different tokens of the same credential, as two Fernet
   encryptions of it are: writing them unchanged a second time changes the Newznab option.
   */
  lemma TwoTokens(c: Cipher, f: Fields, g: Fields, a: string, b: string, text: string, w: Work, nextId: int, nonce: nat)
    requires Sound(c) && Shrinks(c) && Trusted(c, w.cache) && w.ids !! {1, 2}
    requires a != b && !Blank(Some(text)) && NoDelimiter(f) && NoDelimiter(g)
    requires IsToken(a) && a != "None" && c.decrypt(a) == Some(text) && !Contains(a, DELIMITER)
    requires IsToken(b) && b != "None" && c.decrypt(b) == Some(text) && !Contains(b, DELIMITER)
    requires Canonical(f) != "" && Canonical(f) !in w.names && Canonical(g) != "" && Canonical(g) !in w.names
    requires Canonical(f) != Canonical(g)
    ensures var r := Prepare(c, Sealed(f, a, 1), Sealed(g, b, 2), w);
            && r.Some?
            && var q := Prepare(c, AsEntries(r.value.newznab.runtime), AsEntries(r.value.torznab.runtime),
                                Again(r.value, w, nextId, nonce));
               !(q.Some? && SameLists(r.value, q.value))
  {
    OneTokenField(c, f, a, text, 1, w);
    var n := PrepareField(c, Sealed(f, a, 1), w).value;
    OneTokenField(c, g, b, text, 2, n.after);
    var p := Prepare(c, Sealed(f, a, 1), Sealed(g, b, 2), w).value;
    assert p.newznab.runtime[0].fields.credential == Some(text);
    assert text in Active(p.newznab.runtime);
    assert TokenFor(c, Some(b), text) && LastToken(c, Sealed(g, b, 2), text) == Some(b);
    SecondWriteIsStable(c, Sealed(f, a, 1), Sealed(g, b, 2), w, nextId, nonce);
  }

  lemma NoEntries(c: Cipher, w: Work)
    ensures PrepareField(c, [], w).Some?
  {
    var none: seq<Entry> := [];
    assert DecodeAll(c, none, w.cache) == Some(Decoding([], w.cache, false));
    assert Assign(none, w.nextId, w.ids) == Some(Allocation([], w.nextId, w.ids));
    assert Seal(c, [], w.cache, w.nonce) == Some(Sealing([], w.cache, w.nonce));
    assert AsEntries([]) == none && Codec.Flatten(none) == [];
  }

  /** A stored token decrypts to a credential that itself looks encoded: writing it again decodes it once more. */
  lemma EncodedLook(c: Cipher, f: Fields, token: string, text: string, w: Work, nextId: int, nonce: nat)
    requires Sound(c) && Shrinks(c) && Trusted(c, w.cache) && 1 !in w.ids && NoDelimiter(f)
    requires IsToken(token) && token != "None" && c.decrypt(token) == Some(text) && !Contains(token, DELIMITER)
    requires !Blank(Some(text)) && Marked(text) && Canonical(f) != "" && Canonical(f) !in w.names
    ensures var r := Prepare(c, Sealed(f, token, 1), [], w);
            && r.Some?
            && var q := Prepare(c, AsEntries(r.value.newznab.runtime), AsEntries(r.value.torznab.runtime),
                                Again(r.value, w, nextId, nonce));
               !(q.Some? && SameLists(r.value, q.value))
  {
    OneTokenField(c, f, token, text, 1, w);
    var n := PrepareField(c, Sealed(f, token, 1), w).value;
    NoEntries(c, n.after);
    assert n.runtime[0].fields.credential == Some(text);
    SecondWriteIsStable(c, Sealed(f, token, 1), [], w, nextId, nonce);
  }
}
