/**
 Provider credentials at rest: runtime entries hold plaintext, the file holds Fernet tokens, and
 a cache from plaintext to token keeps repeated writes from encrypting again
 (decrypt_provider_credential, _decode_provider_entries, the encryption loop of
 _prepare_provider_extras_for_write).

 The cipher is a parameter.  Encryption is randomised by a nonce, so that encrypting the same
 text twice gives different tokens.
 */
module Credentials {
  import opened Options
  import opened Providers
  import opened Text

  const TOKEN_PREFIX: string := "gAAAAA"
  const LEGACY_PREFIX: string := "^~$z$"

  datatype Cipher = Cipher(encrypt: (string, nat) -> Option<string>, decrypt: string -> Option<string>)

  type Cache = map<string, string>

  predicate IsToken(s: string) {
    StartsWith(s, TOKEN_PREFIX)
  }

  /** The text looks encoded, so that decoding it is attempted. */
  predicate Marked(s: string) {
    IsToken(s) || StartsWith(s, LEGACY_PREFIX)
  }

  predicate Blank(credential: Option<string>) {
    credential.None? || credential.value == "" || credential.value == "None"
  }

  /** Encryption yields a token, and decryption inverts it. */
  ghost predicate Sound(c: Cipher) {
    forall text, nonce :: c.encrypt(text, nonce).Some? ==>
      IsToken(c.encrypt(text, nonce).value) && c.decrypt(c.encrypt(text, nonce).value) == Some(text)
  }

  /** Encoded text is longer than what it encodes. */
  ghost predicate Shrinks(c: Cipher) {
    forall text :: c.decrypt(text).Some? ==> |c.decrypt(text).value| < |text|
  }

  /** Every cached token decrypts to the text it is cached for. */
  ghost predicate Trusted(c: Cipher, cache: Cache) {
    forall text :: text in cache ==> IsToken(cache[text]) && c.decrypt(cache[text]) == Some(text)
  }

  // ---------------------------------------------------------------- decoding

  datatype Decoded = Decoded(credential: Option<string>, token: Option<string>, migrate: bool)

  /** decrypt_provider_credential; None where it raises. */
  function Decode(c: Cipher, credential: Option<string>): Option<Decoded> {
    if Blank(credential) then Some(Decoded(credential, None, false))
    else if !Marked(credential.value) then Some(Decoded(credential, None, true))
    else
      var text := c.decrypt(credential.value);
      if text.None? then None
      else if IsToken(credential.value) then Some(Decoded(text, credential, false))
      else Some(Decoded(text, None, true))
  }

  function WithCredential(f: Fields, credential: Option<string>): Fields {
    f.(credential := credential)
  }

  datatype Decoding = Decoding(entries: seq<Entry>, cache: Cache, migrate: bool)

  function DecodeOne(d: Decoding, entry: Entry, r: Decoded): Decoding
    requires r.token.Some? ==> r.credential.Some?
  {
    Decoding(d.entries + [entry.(fields := WithCredential(entry.fields, r.credential))],
             if r.token.Some? then d.cache[r.credential.value := r.token.value] else d.cache,
             d.migrate || (r.migrate && !(r.credential.Some? && r.credential.value in d.cache)))
  }

  /** _decode_provider_entries */
  function DecodeAll(c: Cipher, entries: seq<Entry>, cache: Cache): Option<Decoding> {
    if entries == [] then Some(Decoding([], cache, false))
    else
      var before := DecodeAll(c, entries[..|entries| - 1], cache);
      var last := entries[|entries| - 1];
      var r := Decode(c, last.fields.credential);
      if before.None? || r.None? then None else Some(DecodeOne(before.value, last, r.value))
  }

  lemma {:induction false} DecodeNone(c: Cipher, entries: seq<Entry>, k: nat, cache: Cache)
    requires k <= |entries| && DecodeAll(c, entries[..k], cache).None?
    ensures DecodeAll(c, entries, cache).None?
    decreases |entries|
  {
    if k < |entries| {
      assert entries[..|entries| - 1][..k] == entries[..k];
      DecodeNone(c, entries[..|entries| - 1], k, cache);
    } else {
      assert entries[..k] == entries;
    }
  }

  method DecodeProviderEntries(c: Cipher, entries: seq<Entry>, cache: Cache) returns (r: Option<Decoding>)
    ensures r == DecodeAll(c, entries, cache)
  {
    var decoded, tokens, migrationNeeded := [], cache, false;
    for k := 0 to |entries|
      invariant DecodeAll(c, entries[..k], cache) == Some(Decoding(decoded, tokens, migrationNeeded))
    {
      assert entries[..k + 1][..k] == entries[..k];
      var d := Decode(c, entries[k].fields.credential);
      if d.None? {
        DecodeNone(c, entries, k + 1, cache);
        return None;
      }
      var Decoded(credential, token, migrate) := d.value;
      if token.Some? {
        tokens := tokens[credential.value := token.value];
      } else if migrate && credential.Some? && credential.value in tokens {
        migrate := false;
      }
      migrationNeeded := migrationNeeded || migrate;
      decoded := decoded + [entries[k].(fields := WithCredential(entries[k].fields, credential))];
    }
    assert entries[..|entries|] == entries;
    return Some(Decoding(decoded, tokens, migrationNeeded));
  }

  // ---------------------------------------------------------------- encoding

  datatype Sealing = Sealing(stored: seq<Provider>, cache: Cache, nonce: nat)

  function SealOne(c: Cipher, s: Sealing, p: Provider): Option<Sealing> {
    if Blank(p.fields.credential) then Some(s.(stored := s.stored + [p]))
    else
      var text := p.fields.credential.value;
      if text in s.cache then
        Some(s.(stored := s.stored + [p.(fields := WithCredential(p.fields, Some(s.cache[text])))]))
      else
        var token := c.encrypt(text, s.nonce);
        if token.None? then None
        else Some(Sealing(s.stored + [p.(fields := WithCredential(p.fields, token))],
                          s.cache[text := token.value], s.nonce + 1))
  }

  /** The stored copies of a provider list; None where encryption fails and the write is refused. */
  function Seal(c: Cipher, providers: seq<Provider>, cache: Cache, nonce: nat): Option<Sealing> {
    if providers == [] then Some(Sealing([], cache, nonce))
    else
      var before := Seal(c, providers[..|providers| - 1], cache, nonce);
      if before.None? then None else SealOne(c, before.value, providers[|providers| - 1])
  }

  lemma {:induction false} SealNone(c: Cipher, providers: seq<Provider>, k: nat, cache: Cache, nonce: nat)
    requires k <= |providers| && Seal(c, providers[..k], cache, nonce).None?
    ensures Seal(c, providers, cache, nonce).None?
    decreases |providers|
  {
    if k < |providers| {
      assert providers[..|providers| - 1][..k] == providers[..k];
      SealNone(c, providers[..|providers| - 1], k, cache, nonce);
    } else {
      assert providers[..k] == providers;
    }
  }

  method SealProviders(c: Cipher, providers: seq<Provider>, cache: Cache, nonce: nat) returns (r: Option<Sealing>)
    ensures r == Seal(c, providers, cache, nonce)
  {
    var stored, tokens, n := [], cache, nonce;
    for k := 0 to |providers|
      invariant Seal(c, providers[..k], cache, nonce) == Some(Sealing(stored, tokens, n))
    {
      assert providers[..k + 1][..k] == providers[..k];
      var p := providers[k];
      if !Blank(p.fields.credential) {
        var text := p.fields.credential.value;
        if text !in tokens {
          var token := c.encrypt(text, n);
          n := n + 1;
          if token.None? {
            SealNone(c, providers, k + 1, cache, nonce);
            return None;
          }
          tokens := tokens[text := token.value];
        }
        p := p.(fields := WithCredential(p.fields, Some(tokens[text])));
      }
      stored := stored + [p];
    }
    assert providers[..|providers|] == providers;
    return Some(Sealing(stored, tokens, n));
  }

  // ---------------------------------------------------------------- what is stored

  predicate Covered(cache: Cache, credential: Option<string>) {
    Blank(credential) || credential.value in cache
  }

  /** The stored copy of a provider under a cache that covers it. */
  function StoredAs(p: Provider, cache: Cache): Provider
    requires Covered(cache, p.fields.credential)
  {
    if Blank(p.fields.credential) then p
    else p.(fields := WithCredential(p.fields, Some(cache[p.fields.credential.value])))
  }

  predicate StoredUnder(stored: seq<Provider>, providers: seq<Provider>, cache: Cache) {
    && |stored| == |providers|
    && forall i :: 0 <= i < |providers| ==>
         Covered(cache, providers[i].fields.credential) && stored[i] == StoredAs(providers[i], cache)
  }

  predicate Extends(cache: Cache, more: Cache) {
    forall text :: text in cache ==> text in more && more[text] == cache[text]
  }

  lemma {:induction false} DecodeKeepsTrust(c: Cipher, entries: seq<Entry>, cache: Cache)
    requires Trusted(c, cache) && DecodeAll(c, entries, cache).Some?
    ensures Trusted(c, DecodeAll(c, entries, cache).value.cache)
  {
    if entries != [] {
      DecodeKeepsTrust(c, entries[..|entries| - 1], cache);
    }
  }

  lemma SealStep(c: Cipher, s: Sealing, p: Provider)
    requires Sound(c) && Trusted(c, s.cache) && SealOne(c, s, p).Some?
    ensures var t := SealOne(c, s, p).value;
            && Trusted(c, t.cache) && Extends(s.cache, t.cache) && Covered(t.cache, p.fields.credential)
            && t.stored == s.stored + [StoredAs(p, t.cache)]
  {
  }

  /** Encoding only adds to the cache, and the cache then covers and explains every stored copy. */
  lemma {:induction false} SealedUnderCache(c: Cipher, providers: seq<Provider>, cache: Cache, nonce: nat)
    requires Sound(c) && Trusted(c, cache) && Seal(c, providers, cache, nonce).Some?
    ensures var s := Seal(c, providers, cache, nonce).value;
            Trusted(c, s.cache) && Extends(cache, s.cache) && StoredUnder(s.stored, providers, s.cache)
  {
    if providers != [] {
      var n := |providers| - 1;
      SealedUnderCache(c, providers[..n], cache, nonce);
      var before := Seal(c, providers[..n], cache, nonce).value;
      var s := Seal(c, providers, cache, nonce).value;
      SealStep(c, before, providers[n]);
      forall i | 0 <= i < n
        ensures Covered(s.cache, providers[i].fields.credential) && s.stored[i] == StoredAs(providers[i], s.cache)
      {
        assert providers[..n][i] == providers[i];
      }
    }
  }

  /** A provider stored under a trusted cache carries a token that decodes to its credential. */
  lemma StoredDecodes(c: Cipher, p: Provider, cache: Cache)
    requires Trusted(c, cache) && Covered(cache, p.fields.credential)
    ensures var stored := StoredAs(p, cache).fields.credential;
            && (Blank(stored) || IsToken(stored.value))
            && Decode(c, stored).Some? && Decode(c, stored).value.credential == p.fields.credential
            && !Decode(c, stored).value.migrate
  {
    if !Blank(p.fields.credential) {
      var token := cache[p.fields.credential.value];
      assert token[0] == TOKEN_PREFIX[0] == 'g';
      assert token != "None";
    }
  }

  /** Decoding the stored entries, under any cache, gives exactly the runtime entries; nothing needs migration. */
  lemma {:induction false} StorageDecodesToRuntime(c: Cipher, stored: seq<Provider>, providers: seq<Provider>,
                                                   cache: Cache, tokens: Cache)
    requires Trusted(c, tokens) && StoredUnder(stored, providers, tokens)
    ensures var r := DecodeAll(c, AsEntries(stored), cache);
            r.Some? && r.value.entries == AsEntries(providers) && !r.value.migrate
  {
    if providers != [] {
      var n := |providers| - 1;
      StorageDecodesToRuntime(c, stored[..n], providers[..n], cache, tokens);
      assert AsEntries(stored)[..n] == AsEntries(stored[..n]);
      StoredDecodes(c, providers[n], tokens);
      assert AsEntries(providers) == AsEntries(providers[..n]) + [Entry(providers[n].fields, Some(providers[n].id))];
    }
  }

  /** Encoding raises only if an encryption does, and it must if the only chance to get a token fails. */
  lemma {:induction false} SealRaises(c: Cipher, providers: seq<Provider>, cache: Cache, nonce: nat)
    ensures (forall text, n :: c.encrypt(text, n).Some?) ==> Seal(c, providers, cache, nonce).Some?
    ensures (exists p :: p in providers && Stuck(c, p, cache)) ==> Seal(c, providers, cache, nonce).None?
  {
    if providers != [] {
      var n := |providers| - 1;
      SealRaises(c, providers[..n], cache, nonce);
      if Seal(c, providers[..n], cache, nonce).Some? {
        SealedTexts(c, providers[..n], cache, nonce);
      }
      assert forall p :: p in providers <==> p in providers[..n] || p == providers[n];
    }
  }

  /** The provider's credential is not cached and cannot be encrypted. */
  ghost predicate Stuck(c: Cipher, p: Provider, cache: Cache) {
    var credential := p.fields.credential;
    !Blank(credential) && credential.value !in cache && NeverEncrypts(c, credential.value)
  }

  ghost predicate NeverEncrypts(c: Cipher, text: string) {
    forall n :: c.encrypt(text, n).None?
  }

  /** A text that is never encrypted is cached only if it was before. */
  lemma {:induction false} SealedTexts(c: Cipher, providers: seq<Provider>, cache: Cache, nonce: nat)
    requires Seal(c, providers, cache, nonce).Some?
    ensures forall text :: text in Seal(c, providers, cache, nonce).value.cache && NeverEncrypts(c, text) ==>
              text in cache
  {
    if providers != [] {
      SealedTexts(c, providers[..|providers| - 1], cache, nonce);
    }
  }

  // ---------------------------------------------------------------- writing again

  /** Plaintext that does not look encoded. */
  predicate Plain(credential: Option<string>) {
    Blank(credential) || !Marked(credential.value)
  }

  predicate AllPlain(providers: seq<Provider>) {
    forall i :: 0 <= i < |providers| ==> Plain(providers[i].fields.credential)
  }

  lemma PlainIsFixed(c: Cipher, credential: Option<string>)
    requires Shrinks(c)
    ensures var r := Decode(c, credential);
            && (Plain(credential) <==> r.Some? && r.value.credential == credential)
            && (Plain(credential) ==> r.value.token.None?)
  {
  }

  /** Decoding leaves runtime entries alone exactly when no credential looks encoded. */
  lemma {:induction false} RuntimeIsFixed(c: Cipher, providers: seq<Provider>, cache: Cache)
    requires Shrinks(c)
    ensures AllPlain(providers) ==>
              var r := DecodeAll(c, AsEntries(providers), cache);
              r.Some? && r.value.entries == AsEntries(providers) && r.value.cache == cache
    ensures !AllPlain(providers) ==>
              var r := DecodeAll(c, AsEntries(providers), cache);
              r.None? || r.value.entries != AsEntries(providers)
  {
    if providers != [] {
      var n := |providers| - 1;
      var front, last := providers[..n], providers[n];
      RuntimeIsFixed(c, front, cache);
      PlainIsFixed(c, last.fields.credential);
      DecodeInTurn(c, providers, cache);
      assert AllPlain(providers) <==> AllPlain(front) && Plain(last.fields.credential);
      var before := DecodeAll(c, AsEntries(front), cache);
      if before.Some? {
        DecodeLength(c, AsEntries(front), cache);
        LastIsFixed(c, before.value, front, last);
      }
    }
  }

  lemma DecodeInTurn(c: Cipher, providers: seq<Provider>, cache: Cache)
    requires providers != []
    ensures var front, last := providers[..|providers| - 1], providers[|providers| - 1];
            var before, r := DecodeAll(c, AsEntries(front), cache), Decode(c, last.fields.credential);
            var e := Entry(last.fields, Some(last.id));
            && AsEntries(providers) == AsEntries(front) + [e]
            && DecodeAll(c, AsEntries(providers), cache)
               == if before.None? || r.None? then None else Some(DecodeOne(before.value, e, r.value))
  {
    var n := |providers| - 1;
    assert AsEntries(providers)[..n] == AsEntries(providers[..n]);
  }

  lemma LastIsFixed(c: Cipher, before: Decoding, front: seq<Provider>, last: Provider)
    requires |before.entries| == |front|
    ensures var r := Decode(c, last.fields.credential);
            r.Some? ==>
              (DecodeOne(before, Entry(last.fields, Some(last.id)), r.value).entries
                 == AsEntries(front) + [Entry(last.fields, Some(last.id))]
               <==> before.entries == AsEntries(front) && r.value.credential == last.fields.credential)
  {
    var r := Decode(c, last.fields.credential);
    if r.Some? {
      var e := Entry(last.fields, Some(last.id));
      var after := DecodeOne(before, e, r.value).entries;
      assert after[..|front|] == before.entries;
      assert (AsEntries(front) + [e])[..|front|] == AsEntries(front);
      assert after[|front|] == e.(fields := WithCredential(e.fields, r.value.credential));
      assert (AsEntries(front) + [e])[|front|] == e;
    }
  }

  lemma {:induction false} DecodeLength(c: Cipher, entries: seq<Entry>, cache: Cache)
    requires DecodeAll(c, entries, cache).Some?
    ensures |DecodeAll(c, entries, cache).value.entries| == |entries|
  {
    if entries != [] {
      DecodeLength(c, entries[..|entries| - 1], cache);
    }
  }

  /** Under a covering cache nothing is encrypted, and the cached tokens are emitted. */
  lemma {:induction false} SealFromCache(c: Cipher, providers: seq<Provider>, stored: seq<Provider>, cache: Cache,
                                         nonce: nat)
    requires StoredUnder(stored, providers, cache)
    ensures Seal(c, providers, cache, nonce) == Some(Sealing(stored, cache, nonce))
  {
    if providers != [] {
      var n := |providers| - 1;
      SealFromCache(c, providers[..n], stored[..n], cache, nonce);
      assert stored[..n] + [stored[n]] == stored;
    }
  }

  // ---------------------------------------------------------------- what decoding keeps

  lemma {:induction false} DecodeKeepsIds(c: Cipher, entries: seq<Entry>, cache: Cache)
    requires DecodeAll(c, entries, cache).Some?
    ensures var d := DecodeAll(c, entries, cache).value.entries;
            |d| == |entries| && forall i :: 0 <= i < |d| ==> d[i].id == entries[i].id
  {
    if entries != [] {
      DecodeKeepsIds(c, entries[..|entries| - 1], cache);
    }
  }

  lemma {:induction false} DecodeKeepsKeys(c: Cipher, entries: seq<Entry>, cache: Cache)
    requires DecodeAll(c, entries, cache).Some?
    ensures cache.Keys <= DecodeAll(c, entries, cache).value.cache.Keys
  {
    if entries != [] {
      DecodeKeepsKeys(c, entries[..|entries| - 1], cache);
    }
  }

  predicate NoTokens(entries: seq<Entry>) {
    forall i :: 0 <= i < |entries| ==>
      entries[i].fields.credential.None? || !IsToken(entries[i].fields.credential.value)
  }

  /** The credential is a token for this text. */
  predicate TokenFor(c: Cipher, credential: Option<string>, text: string) {
    !Blank(credential) && IsToken(credential.value) && c.decrypt(credential.value) == Some(text)
  }

  /** The last token in the list that decrypts to the text. */
  function LastToken(c: Cipher, entries: seq<Entry>, text: string): (token: Option<string>)
    ensures token.Some? ==> exists i :: 0 <= i < |entries| && entries[i].fields.credential == token
                                        && TokenFor(c, token, text)
    ensures token.None? ==> forall i :: 0 <= i < |entries| ==> !TokenFor(c, entries[i].fields.credential, text)
  {
    if entries == [] then None
    else
      var last := entries[|entries| - 1].fields.credential;
      if TokenFor(c, last, text) then last else LastToken(c, entries[..|entries| - 1], text)
  }

  /** Decoding caches, for each text, the last token in the list, and keeps what was cached for other texts. */
  lemma {:induction false} DecodedToken(c: Cipher, entries: seq<Entry>, cache: Cache, text: string)
    requires DecodeAll(c, entries, cache).Some?
    ensures var d, last := DecodeAll(c, entries, cache).value.cache, LastToken(c, entries, text);
            && (text in d <==> last.Some? || text in cache)
            && (text in d ==> d[text] == last.GetOr(if text in cache then cache[text] else ""))
  {
    if entries != [] {
      DecodedToken(c, entries[..|entries| - 1], cache, text);
    }
  }

  // ---------------------------------------------------------------- what decoding says of every entry

  /** Nothing to decode, or it can be decoded. */
  predicate Readable(c: Cipher, credential: Option<string>) {
    Plain(credential) || c.decrypt(credential.value).Some?
  }

  lemma PlainCases(credential: Option<string>)
    ensures Plain(credential) <==>
              || credential.None? || credential.value == "" || credential.value == "None"
              || (!StartsWith(credential.value, "gAAAAA") && !StartsWith(credential.value, "^~$z$"))
  {
  }

  /** Decoding raises exactly if a credential looks encoded and cannot be decoded. */
  lemma {:induction false} DecodesExactlyWhen(c: Cipher, entries: seq<Entry>, cache: Cache)
    ensures DecodeAll(c, entries, cache).Some? <==>
              forall i :: 0 <= i < |entries| ==> Readable(c, entries[i].fields.credential)
  {
    if entries != [] {
      var n := |entries| - 1;
      DecodesExactlyWhen(c, entries[..n], cache);
      assert forall i :: 0 <= i < n ==> entries[..n][i] == entries[i];
      assert forall i :: 0 <= i < |entries| ==> i < n || entries[i] == entries[n];
    }
  }

  /** What looks encoded is replaced by its text; every other credential and every other field stays. */
  lemma {:induction false} DecodedEntries(c: Cipher, entries: seq<Entry>, cache: Cache, i: nat)
    requires DecodeAll(c, entries, cache).Some? && i < |entries|
    ensures var d, was := DecodeAll(c, entries, cache).value.entries, entries[i].fields.credential;
            && |d| == |entries|
            && d[i] == entries[i].(fields := entries[i].fields.(credential := d[i].fields.credential))
            && (Plain(was) ==> d[i].fields.credential == was)
            && (!Plain(was) ==> d[i].fields.credential == c.decrypt(was.value))
  {
    var n := |entries| - 1;
    DecodeLength(c, entries[..n], cache);
    if i < n {
      DecodedEntries(c, entries[..n], cache, i);
    }
  }

  /** An entry that is stored as plaintext, or in the legacy encoding, with this text. */
  predicate StoredAsText(c: Cipher, credential: Option<string>, text: string) {
    && !Blank(credential) && !IsToken(credential.value)
    && (if StartsWith(credential.value, LEGACY_PREFIX) then c.decrypt(credential.value) == Some(text)
        else credential.value == text)
  }

  /** Entry i is stored without a token, and none is cached for its text or comes before it in the list. */
  predicate LacksToken(c: Cipher, entries: seq<Entry>, cache: Cache, i: nat, text: string)
    requires i < |entries|
  {
    && StoredAsText(c, entries[i].fields.credential, text) && text !in cache
    && forall j :: 0 <= j < i ==> !TokenFor(c, entries[j].fields.credential, text)
  }

  ghost predicate EntryLacksToken(c: Cipher, entries: seq<Entry>, cache: Cache, i: nat)
    requires i < |entries|
  {
    exists text :: LacksToken(c, entries, cache, i, text)
  }

  ghost predicate SomeLackToken(c: Cipher, entries: seq<Entry>, cache: Cache) {
    exists i: nat :: i < |entries| && EntryLacksToken(c, entries, cache, i)
  }

  /** Reading asks for a rewrite of the file exactly if an entry has no token to go by. */
  lemma {:induction false} MigratesExactlyWhen(c: Cipher, entries: seq<Entry>, cache: Cache)
    requires DecodeAll(c, entries, cache).Some?
    ensures DecodeAll(c, entries, cache).value.migrate <==> SomeLackToken(c, entries, cache)
  {
    if entries != [] {
      var n := |entries| - 1;
      MigratesExactlyWhen(c, entries[..n], cache);
      LackTokenStep(c, entries, cache);
      LastMigrates(c, entries, cache);
    }
  }

  lemma LackTokenStep(c: Cipher, entries: seq<Entry>, cache: Cache)
    requires entries != []
    ensures SomeLackToken(c, entries, cache) <==>
              || SomeLackToken(c, entries[..|entries| - 1], cache)
              || EntryLacksToken(c, entries, cache, |entries| - 1)
  {
    var n := |entries| - 1;
    var front := entries[..n];
    forall i: nat | i < n ensures EntryLacksToken(c, entries, cache, i) <==> EntryLacksToken(c, front, cache, i) {
      assert forall j :: 0 <= j <= i ==> front[j] == entries[j];
      assert forall text :: LacksToken(c, entries, cache, i, text) <==> LacksToken(c, front, cache, i, text);
    }
  }

  lemma LastMigrates(c: Cipher, entries: seq<Entry>, cache: Cache)
    requires entries != [] && DecodeAll(c, entries, cache).Some?
    ensures DecodeAll(c, entries, cache).value.migrate <==>
              || DecodeAll(c, entries[..|entries| - 1], cache).value.migrate
              || EntryLacksToken(c, entries, cache, |entries| - 1)
  {
    var n := |entries| - 1;
    var credential := entries[n].fields.credential;
    var r := Decode(c, credential).value;
    if !Blank(credential) && !IsToken(credential.value) {
      var text := r.credential.value;
      DecodedToken(c, entries[..n], cache, text);
      TokenBefore(c, entries, text);
      assert StoredAsText(c, credential, text);
      assert forall other :: StoredAsText(c, credential, other) ==> other == text;
      assert LacksToken(c, entries, cache, n, text) <==> text !in DecodeAll(c, entries[..n], cache).value.cache;
    }
  }

  lemma TokenBefore(c: Cipher, entries: seq<Entry>, text: string)
    requires entries != []
    ensures LastToken(c, entries[..|entries| - 1], text).Some? <==>
              exists j :: 0 <= j < |entries| - 1 && TokenFor(c, entries[j].fields.credential, text)
  {
    var front := entries[..|entries| - 1];
    assert forall j :: 0 <= j < |front| ==> front[j] == entries[j];
  }
}
