# Comicarr: state, failure and bookkeeping, verified

This project models the parts of Comicarr in which several pieces of state must stay in step while
any step may fail, and proves what the code keeps. Methods and classes follow the code where it
changes things step by step and are proved equal to specification functions; the theorems are
about those functions, for all inputs, all runs and all failures.

One module per component:

| file | component |
|---|---|
| `ConfigStore.dfy` | `apply_transaction`, `writeconfig`, `writeconfig_values`: one update of the runtime object, the parser, the file, the id counter and the provider-search table |
| `ProviderIds.dfy` | provider ids and names: `get_extras`, `_absorb_legacy_torznab`, `_assign_provider_ids`, `_validate_provider_names` |
| `Credentials.dfy` | credentials at rest: decoding, encoding, the token cache |
| `ProviderCodec.dfy` | the flat option text of the provider lists |
| `ProviderWrite.dfy` | `_prepare_provider_extras_for_write`, built from the three above |
| `ProviderOrder.dfy` | `_calculate_provider_order` |
| `ProviderSearches.dfy` | `write_out_provider_searches`, the reconciliation of the projection table |
| `ProviderUpdate.dfy` | the whole provider update, from preparation to committed table and file |
| `AtomicReplace.dfy` | `_atomic_replace_file` and the rollback that uses it, with crashes, over runs of calls |
| `MasterKey.dfy` | publication of the master key by interleaved processes |
| `Dedup.dfy`, `UniqueMigration.dfy` | the unique-constraint migration |
| `PagedMigration.dfy` | the batched database migration and its verification |
| `RateLimiter.dfy` | the token bucket |
| `Placeholders.dfy`, `Binding.dfy` | the SQL placeholder conversion, and the binding of its result by SQLAlchemy's `text()` |
| `CvCache.dfy` | the response cache |
| `TitleSweep.dfy` | the in-place title sweep and the comparison that uses it |
| `Changelog.dfy` | the changelog reader |
| `Options.dfy`, `Text.dfy`, `Providers.dfy` | shared vocabulary |

`dafny verify dfyconfig.toml` checks everything.

## How failure is modelled

A call receives an environment that says how each fallible step ends: which statement raises,
whether a fault strikes before or after an effect, what opaque code leaves behind. Theorems hold
for every environment. Ciphers, hash functions and the rewriting of changelog lines are function
parameters; where a theorem needs that decryption inverts encryption, that encoded text is longer
than what it encodes, or that the hash is injective, it says so in its `requires`.

## What the proofs brought to light

The code is modelled as it is; these are properties it does not have, each with its exact condition,
and most with a concrete input.

* `writeconfig` and `writeconfig_values` can return False with a changed file: exactly when a
  write that got as far as the replacement failed after the rename, or its projection failed and
  the undo changed nothing (`ConfigStore.WriteConfigFailure`, `WriteConfigValuesFailure`; an input
  is `FalseWithNewFile`). `apply_transaction` has no such gap.
* With UNIQUE columns the reconciliation of the projection raises exactly when the adopted rows
  collide, a provider is unknown, or some ordered provider has a row of its own while its id still
  sits in the row of another name, and no provider before it has taken the one or freed the other
  (`ProviderSearches.CommitsExactlyWhen`, `RaisesExactlyWhen`). So providers that pass their ids
  around, in any number, among any others and in any order, can never be reconciled
  (`ExchangeOfIds`, `TwoExchange`).
* A row whose id and type already match keeps its spelling: the row of an ordered provider is
  spelled canonically if and only if no adopted row was already its row under another spelling
  (`ProviderSearches.CommittedSpelling`; an input is `FooStaysFoo`).
* The ids that `get_extras` hands out are not checked against the reserved ones; loading then
  raises exactly when a reserved id lies in the range (`ProviderIds.LoadedIdsValid`; an input is
  `ReservedIdIsHandedOut`).
* `_assign_provider_ids` raises for ids that do not clash exactly when at least as many legacy
  entries come before a stored id as there are free numbers up to it
  (`ProviderIds.RaisesExactlyWhen`; an input is `LegacyEntryTakesLaterId`).
* A blank legacy Torznab name passes the clash test (`ProviderIds.AbsorbedNameIsValid`; an input is
  `BlankNameIsAbsorbed`).
* Six providers with ids, or a multiple, can be stored in a text that is not read back, if their
  hosts and other fields are boolean words (`ProviderCodec.StoredEntriesRoundTrip`; an input is
  `SixEntriesCanBeLost`).
* A second write of unchanged providers is stable exactly if no plaintext credential looks encoded
  and no Torznab entry brings another token, as the last for its credential, than the one cached
  after the Newznab list (`ProviderWrite.SecondWriteIsStable`; inputs are `EncodedLook` and
  `TwoTokens`).
* A first provider order lists 32p; a recomputed order holds all enabled providers if and only if
  32p is off or a configured provider goes by that name (`ProviderOrder.RecomputedOrderIsComplete`).
* The rate limiter credits slept time twice: its rate is twice the configured one, and both the
  bound from construction and that of a window are reached (`RateLimiter.BoundIsReached`,
  `WindowBoundIsReached`).
* With mixed hard-link support a key that was already returned can be replaced, for every number
  of processes and every mixture (`MasterKey.AgreementNeedsUniformLinks`); with uniform support the
  keys agree at every moment exactly if no power loss drops the entry of a returned key
  (`AgreementThroughout`; a run that does is `LoadedKeyCanBeLost`).
* Binding by name is binding by position exactly if no placeholder is glued to a word character, a
  colon, a backslash or another placeholder, save for a single word character before a colon, and
  the query writes out no parameter (`Binding.NamedBindingIsPositional`; inputs are `GluedToWord`
  and `GluedToColon`).
* A full UNIQUE constraint fits after deduplication exactly if no two rows share a key that the
  deduplication predicate leaves out (`Dedup.FullConstraintFits`; an input is `EmptyKeysStay`), so
  on PostgreSQL and MySQL duplicate empty keys end the migration with an error.
* The counts of the paged migration cannot tell an empty target from one that held exactly as many
  rows as were dropped (`PagedMigration.VerdictOfCompleteTable`; an input is `StaleRowPasses`).
* An entry that expires in this very second is counted as valid although `get` no longer returns
  it (`CvCache.ValidEntriesCount`; an input is `ExpiringEntryCounts`).
* "and" and "the" are swept from a title everywhere if and only if it mentions each of them that
  is there once number signs are dropped (`TitleSweep.SweptEverywhereExactlyWhen`; an input is
  "a#nd", `HashHidesWord`).
* The known providers of an order are projected to different identities, with ids other than 0,
  exactly unless two names differ in case only, one has the id 0, or one has the id that a built-in
  name in the order is always projected with, switched on or not
  (`ProviderUpdate.InjectiveExactlyWhen`; an input is `FalseProwlarr`). A provider whose name ends
  in a quotation mark is never projected (`QuotedIsNeverProjected`).
* A new provider can end before a kept one, exactly if the kept position reaches the number of
  enabled providers (`ProviderOrder.NewProvidersComeLast`; an input is `NewProviderOvertakes`).

## Model

| member | source | states |
|---|---|---|
| ConfigStore.FailedTransaction | comicarr/config.py:1186-1252 | A transaction that does not return True leaves table and id counter as before, and the file as before or the store halted; memory is as before whenever its restoration completes, and anything else lost is memory only, while the file never changed |
| ConfigStore.HaltsExactlyWhen | comicarr/config.py:1219-1252 | The store halts if and only if the handler ran, the file was or may have been changed, and one of the two restorations did not complete |
| ConfigStore.ProviderCommit | comicarr/config.py:1210-1218 | True for an update with provider values means file options, order, table, runtime lists, tokens and counter are all the new ones together |
| ConfigStore.ProviderWrite | comicarr/config.py:1465-1534 | A provider write that returns True has published everything it prepared, and the parser holds the prepared texts |
| ConfigStore.ProcessedWrites | comicarr/config.py:1467-1534 | Any write, at startup or not, with a projection or without, returns True if and only if no step fails; then the file is the rendered parser, which holds exactly the prepared texts and every other option as before, and memory, counter and table are the prepared ones |
| ConfigStore.WriteConfigWrites | comicarr/config.py:1413-1419 | The same of writeconfig, from the state the processed values leave; never while halted |
| ConfigStore.WriteConfigValuesWrites | comicarr/config.py:1421-1442 | The same of writeconfig_values |
| ConfigStore.ApplyWrites | comicarr/config.py:1186-1224 | A transaction of any values returns True if and only if no step fails; then the file is the rendering of the parser the write staged, which is the parser in memory unless configure ran afterwards |
| ConfigStore.ProviderValues | comicarr/config.py:1208-1211 | Exactly the two list options make an update one of the providers |
| ConfigStore.RenderIsInjective | comicarr/config.py:1517-1519 | Two different parsers of plain settings are never written as the same text, so the file determines every option |
| ConfigStore.ScalarCommit | comicarr/config.py:1210-1216 | An update without provider values never changes the projection, whatever happens; what it does change is said by ApplyWrites |
| ConfigStore.LookupPutAll | comicarr/config.py:1474-1508 | What a write stores under an option is its last assignment to it, whatever the parser held |
| ConfigStore.StoredOptions | comicarr/config.py:1474-1491 | The three provider options of a write do not overwrite each other |
| ConfigStore.MaxIdBounds | comicarr/config.py:1529-1531 | The counter ends at or above its start and every published id |
| ConfigStore.HaltedAbsorbs | comicarr/config.py:1189-1191 | Once halted, no later run of any calls changes anything, and none returns True |
| ConfigStore.RunPublishesLastCommit | comicarr/config.py:1186-1252 | Over any run of transactions the table, and unless halted the file, are those of the last call that returned True |
| ConfigStore.FailuresAreUnobservable | comicarr/config.py:1186-1252 | A run ends in the state its successful calls alone would reach, while memory restoration works and the store is not halted |
| ConfigStore.RefusedWrite | comicarr/config.py:1465-1547 | A write that is refused or raises changes the file if and only if it reached the replacement and left a different file behind; refused, it leaves everything else as before but the encryption flag |
| ConfigStore.WriteConfigFailure | comicarr/config.py:1413-1419 | Exactly when writeconfig returning False has changed the file |
| ConfigStore.WriteConfigValuesFailure | comicarr/config.py:1421-1451 | writeconfig_values restores all memory, and has the same gap in the file, exactly then |
| ConfigStore.WriteAnswers | comicarr/config.py:1453-1547 | Which failures are answered with False and which escape: errors of the preparation, the replacement and the projection are answered, all others and every interrupt escape |
| ConfigStore.RaisedWrite | comicarr/config.py:1474-1511 | A write that raises leaves a prefix of its assignments in the parser and changes nothing else in memory but the encryption flag |
| ConfigStore.WriteConfigValuesAnswers | comicarr/config.py:1433-1451 | writeconfig_values never raises an error; an interrupt escapes with nothing put back |
| ConfigStore.ApplyAnswers | comicarr/config.py:1196-1252 | A transaction raises an error if and only if reading the file for the snapshot does, and an interrupt if and only if one is the first failure |
| ConfigStore.FalseWithNewFile | comicarr/config.py:1534-1547 | An environment in which both entry points return False and leave a file that was not there |
| ConfigStore.Store.ApplyTransaction | comicarr/config.py:1186-1252 | New state and outcome are those of the transaction specification, in every environment |
| ConfigStore.Store.ApplyBody | comicarr/config.py:1193-1218 | The guarded body, with projection forced off for scalar updates and configure off for provider updates |
| ConfigStore.Store.Write | comicarr/config.py:1413-1419 | writeconfig against its specification, including the halted case |
| ConfigStore.Store.WriteValues | comicarr/config.py:1421-1451 | writeconfig_values against its specification, with its partial restoration |
| ConfigStore.Store.WriteProcessedValues | comicarr/config.py:1465-1547 | Preparation, staging and persistence with a fault at any parser assignment |
| ConfigStore.Store.PersistStaged | comicarr/config.py:1517-1547 | Replacement, projection, publication and the inner undo, against the specification whose successes are those of ProcessedWrites and whose refusals are those of RefusedWrite |
| ConfigStore.Store.StageSettings | comicarr/config.py:1474-1508 | The parser after any number of the assignments |
| ConfigStore.Store.PublishRuntime | comicarr/config.py:1526-1533 | The published runtime lists, tokens, order and the raised counter |
| ConfigStore.Store.RestoreConfigFile | comicarr/config.py:1312-1326 | The file is the previous one, unless the restoration itself fails |
| ProviderIds.Registry.GetExtras | comicarr/config.py:2267-2318 | Both lists and the counter are those of the numbering specification; nothing else changes |
| ProviderIds.ExtrasAreNumbered | comicarr/config.py:2267-2318 | Stored ids are kept, legacy entries of both lists get different ids above every stored one, the counter covers all |
| ProviderIds.MaxExplicitIsOne | comicarr/config.py:2286-2287 | The numbering starts at the counter or at a stored id, so no number in between is skipped |
| ProviderIds.LoadedIdsValid | comicarr/config.py:890-898 | The validation after loading passes if and only if stored ids are distinct and unreserved and no reserved id lies in the range handed out |
| ProviderIds.ReservedIdIsHandedOut | comicarr/config.py:2291-2317 | A legacy entry is given the reserved id 101, and the validation after loading raises |
| ProviderIds.FilledRange | comicarr/config.py:2291-2317 | The ids handed out are consecutive, without gaps |
| ProviderIds.Registry.AbsorbLegacyTorznab | comicarr/config.py:459-547 | The loaded state afterwards is that of the absorption specification, with the first unreserved id above the counter |
| ProviderIds.AbsorbedExactly | comicarr/config.py:467-547 | Incomplete or with a taken name the legacy entry stays; with a listed host it is dropped; otherwise, and only then, it becomes the last Torznab provider, with its own name, host, key, category and switches and the smallest unreserved id above the counter |
| ProviderIds.AbsorbIsIdempotent | comicarr/config.py:459-547 | A second absorption changes nothing, whichever way the first one went |
| ProviderIds.AbsorbedIdIsNew | comicarr/config.py:525-541 | The absorbed provider's id is shared with no listed provider and not reserved, and the counter still covers all ids |
| ProviderIds.AbsorbedNameIsValid | comicarr/config.py:512-541 | Provider names stay valid after absorption if and only if the legacy name is not blank, or is empty with a fresh host |
| ProviderIds.BlankNameIsAbsorbed | comicarr/config.py:512-541 | A provider named by one space is absorbed and makes the names invalid |
| ProviderIds.AssignProviderIds | comicarr/config.py:919-940 | The normalised list, the counter and the seen ids, or the exception |
| ProviderIds.AssignedIds | comicarr/config.py:919-940 | A normalisation that does not raise keeps stored ids, yields pairwise distinct ids outside the seen ones, fresh ones above the counter, and has seen exactly these |
| ProviderIds.RaisesExactlyWhen | comicarr/config.py:919-940 | For every list, counter and set of seen ids it raises if and only if a stored id repeats, is reserved, or is reached by the numbering: as many legacy entries come before it as there are free numbers above the counter up to it |
| ProviderIds.OneForEachLegacy | comicarr/config.py:927-931 | The free numbers the counter passes are as many as the legacy entries, so none is skipped |
| ProviderIds.LegacyEntryTakesLaterId | comicarr/config.py:927-937 | Two entries whose stored ids do not clash and for which it raises |
| ProviderIds.AssignInTurn | comicarr/config.py:1064-1068 | Normalising two lists in turn is normalising their concatenation |
| ProviderIds.AssignSettled | comicarr/config.py:919-940 | Providers with distinct unreserved ids are left as they are |
| ProviderIds.ValidateProviderNames | comicarr/config.py:881-888 | Passes exactly for names that are non-empty, pairwise distinct and unseen, and then has seen exactly them too |
| ProviderIds.ReservedExactlyWhen | comicarr/config.py:842-879 | An id or name is reserved if and only if the built-in provider it belongs to is switched on |
| ProviderIds.NamesValidInTurn | comicarr/config.py:1069-1069 | Validating two lists in turn is validating their concatenation |
| Credentials.DecodeProviderEntries | comicarr/config.py:900-917 | Runtime entries, cache and migration flag, or the exception |
| Credentials.DecodesExactlyWhen | comicarr/config.py:66-79 | Decoding raises if and only if a credential looks encoded and cannot be decoded |
| Credentials.DecodedEntries | comicarr/config.py:900-917 | Exactly the credentials that look encoded are replaced, by their text, and every other field stays |
| Credentials.MigratesExactlyWhen | comicarr/config.py:904-916 | A rewrite is asked for if and only if some entry is plaintext or in the legacy encoding and its text is neither cached nor that of a token earlier in the list |
| Credentials.SealProviders | comicarr/config.py:1071-1087 | Stored entries and cache, encrypting only what the cache lacks, or the exception |
| Credentials.SealRaises | comicarr/config.py:1076-1086 | Encoding raises only if an encryption fails, and always if a credential in use is neither cached nor ever encrypted |
| Credentials.SealedUnderCache | comicarr/config.py:1071-1087 | Encoding only adds to the cache; the final cache explains every stored credential and stays trusted |
| Credentials.DecodeKeepsTrust | comicarr/config.py:900-917 | Decoding keeps every cached token one that decrypts to its text |
| Credentials.DecodedToken | comicarr/config.py:900-917 | Decoding a list caches, for each text, the last of its tokens in the list, and keeps what was cached for other texts |
| Credentials.StoredDecodes | comicarr/config.py:66-79 | A stored credential is blank or a token, and decodes to the runtime credential without asking for migration |
| Credentials.StorageDecodesToRuntime | comicarr/config.py:900-917 | Stored lists decode to exactly the runtime lists under any cache |
| Credentials.RuntimeIsFixed | comicarr/config.py:900-917 | Decoding a runtime list leaves it alone if and only if no credential looks encoded |
| Credentials.SealFromCache | comicarr/config.py:1076-1086 | Under a covering cache nothing is encrypted and the cached tokens are emitted |
| ProviderCodec.StoredEntriesRoundTrip | comicarr/app/search/provider_config.py:82-128 | Stored text reads back as the entries in normal form, if and only if it does not also fit the other width; otherwise reading raises |
| ProviderCodec.StoredFields | comicarr/app/search/provider_config.py:82-128 | Field by field: only an absent credential and the commas of a category come back as something else |
| ProviderCodec.ParsesExactlyWhen | comicarr/app/search/provider_config.py:63-112 | Any text, also a hand-edited one, is read if and only if its fields divide into valid entries of exactly one of the two widths, and entry i then has the fields of group i |
| ProviderCodec.SerializesExactlyWhen | comicarr/app/search/provider_config.py:115-128 | Entries are stored if and only if no name, host or credential contains the delimiter |
| ProviderCodec.AmbiguousHosts | comicarr/app/search/provider_config.py:90-99 | Ambiguity needs a multiple of six entries and a host that is a boolean word |
| ProviderCodec.SixEntriesCanBeLost | comicarr/app/search/provider_config.py:90-99 | Six entries that are written but not read back |
| ProviderCodec.EntryRoundTrip | comicarr/app/search/provider_config.py:63-79 | Every written entry is structurally valid and reads as its normal form |
| ProviderCodec.BooleanRoundTrip | comicarr/app/search/provider_config.py:33-47 | The canonical boolean spelling is accepted and read as the same value |
| ProviderWrite.PrepareProviderExtras | comicarr/config.py:1053-1101 | Both prepared lists, the committed tokens and the credential flag, or the exception |
| ProviderWrite.PreparedIdentities | comicarr/config.py:1053-1069 | Over both lists ids are distinct and unreserved, names distinct up to case and unreserved, stored ids kept |
| ProviderWrite.PreparesExactlyWhen | comicarr/config.py:1053-1090 | With a working cipher the preparation succeeds if and only if, over both lists together, every credential can be read, the ids and names are valid, and no name or host contains the delimiter |
| ProviderWrite.TokensAreInUse | comicarr/config.py:1092-1101 | A text has a committed token if and only if a provider of either list uses it, and the token decrypts to it |
| ProviderWrite.StorageIsFaithful | comicarr/config.py:1053-1101 | What is stored decodes to exactly the runtime lists; the committed tokens are trusted and cover exactly the credentials in use |
| ProviderWrite.OnlyTokensAreStored | comicarr/config.py:1071-1087 | No plaintext credential reaches the file |
| ProviderWrite.SecondWriteIsStable | comicarr/config.py:1053-1101 | Writing unchanged providers again gives the same lists and texts, if and only if no credential looks encoded and, for each Newznab credential, the last Torznab token that decrypts to it is the one cached after the first list |
| ProviderWrite.CurrentExactlyWhen | comicarr/config.py:900-917 | The stored Newznab tokens are the committed ones if and only if the Torznab input brings no other last token for their credentials |
| ProviderWrite.FirstListCaches | comicarr/config.py:900-917 | After the first list the token cached for a text is its last token in that list, or else the one cached before |
| ProviderWrite.TwoTokens | comicarr/config.py:1065-1087 | Two entries with different tokens of one credential, which a second write stores differently |
| ProviderWrite.EncodedLook | comicarr/config.py:900-917 | A stored token of a credential that itself looks encoded, which a second write decodes once more |
| ProviderWrite.PlaintextKeepsTokensCurrent | comicarr/config.py:1058-1067 | The stored Newznab tokens are the committed ones whenever the second list arrives as plaintext |
| ProviderWrite.WritesTheSame | comicarr/config.py:1053-1101 | Under these conditions the second write also encrypts nothing and cannot fail |
| ProviderOrder.CalculateOrder | comicarr/config.py:2356-2487 | The order and its numbered flat form, or the exception for a position that is no number |
| ProviderOrder.FirstOrder | comicarr/config.py:2356-2412 | With no order before it the order lists exactly the providers that are switched on: 32p, the built-in ones, Newznab, Torznab, Prowlarr, each list in its own order |
| ProviderOrder.ListedNameIs | comicarr/config.py:2382-2388 | A provider is listed under its name, or its host if it has none; one that ends in a quotation mark loses every quotation mark and then the outer white space |
| ProviderOrder.PositionIs | comicarr/config.py:2444-2451 | The position of a provider is the number before its first mention in any case of letters; a new one gets the enabled count |
| ProviderOrder.CalculatesExactlyWhen | comicarr/config.py:2453-2460 | A recomputation raises if and only if an enabled provider that may be ordered has a position that is no number |
| ProviderOrder.OrderIsPermutation | comicarr/config.py:2439-2475 | A recomputed order is a permutation of the enabled providers that may be ordered |
| ProviderOrder.OnlyTracker32pIsDropped | comicarr/config.py:2363-2380 | Those are all enabled providers except 32p |
| ProviderOrder.RecomputedOrderIsComplete | comicarr/config.py:2439-2475 | A recomputed order is a permutation of all enabled providers if and only if 32p is off or a configured provider has its name |
| ProviderOrder.ArrangedByPosition | comicarr/config.py:2439-2475 | Of two providers the one with the smaller previous position comes first, on a tie the one enabled later, if and only if |
| ProviderOrder.NewProvidersComeLast | comicarr/config.py:2439-2475 | New providers end behind all kept ones if and only if no kept position reaches the enabled count the wrong way |
| ProviderOrder.NewProviderOvertakes | comicarr/config.py:2439-2475 | Of the old order a, b, c with c and d enabled the new order is d, c |
| ProviderOrder.RecomputingRestricts | comicarr/config.py:2439-2475 | Recomputing an order that lists every provider moves nobody: it is the old order restricted to the enabled ones |
| ProviderOrder.RecomputingIsIdempotent | comicarr/config.py:2439-2475 | Whatever the previous order, the recomputed one is recomputed to itself |
| ProviderOrder.StoredOrderRoundTrip | comicarr/config.py:2410-2420 | The joined text splits back into the order when no name contains the delimiter |
| ProviderOrder.StoredOrderIsStable | comicarr/config.py:2356-2487 | Recalculating from the stored text with the same providers gives the stored order |
| ProviderOrder.FlatPosition | comicarr/config.py:2444-2451 | In a numbered order a provider is found at its own index, whatever the case of its name |
| ProviderSearches.CommittedProjection | comicarr/config.py:2528-2612 | When the transaction commits every ordered provider has a row with its type, id and name up to case (CommittedSpelling says when exactly), row names stay distinct, and all other rows and usage records are kept as Kept says |
| ProviderSearches.CommittedSpelling | comicarr/config.py:2582-2594 | The row of an ordered provider is spelled exactly as the provider is, if and only if no adopted row already had its id, type and folded name under another spelling |
| ProviderSearches.NewznabRow | comicarr/config.py:2511-2515 | An ordered provider of the Newznab list that is not built in has, after a commit, a row of its id and type newznab |
| ProviderSearches.TorznabRow | comicarr/config.py:2511-2515 | One of the Torznab list, if no Newznab provider has its name, a row of its id and type torznab |
| ProviderSearches.BuiltinRow | comicarr/config.py:2503-2510 | The four built-in providers have their fixed pairs of id and type |
| ProviderSearches.UnknownRaises | comicarr/config.py:2516-2516 | An ordered name that is in no list and not built in raises, unless it is one of the two retired ones |
| ProviderSearches.RetiredIsSkipped | comicarr/config.py:2579-2581 | A retired provider in the order changes nothing: the outcome is that of the order without it |
| ProviderSearches.AdoptedRow | comicarr/config.py:2534-2560 | A row without an id takes over id, name and type of its provider and keeps its usage, absent hits becoming zero; every other row stays |
| ProviderSearches.FooStaysFoo | comicarr/config.py:2584-2584 | The row "foo" of the provider "Foo", with its id and type, is left as it is |
| ProviderSearches.SharedIdMergesNames | comicarr/config.py:2598-2607 | Two rows with the id a provider takes over both get its name, so the start must have distinct ids |
| ProviderSearches.PlaceAllKeepsInv | comicarr/config.py:2572-2612 | The loop invariant: both indexes agree with the table except on ids of placed providers, and no iteration breaks an earlier one |
| ProviderSearches.PlaceStep | comicarr/config.py:2582-2612 | One provider keeps that invariant in every branch |
| ProviderSearches.PlaceByName | comicarr/config.py:2582-2594 | A provider known by name gets its id and type in exactly its row, and keeps its usage |
| ProviderSearches.PlaceById | comicarr/config.py:2598-2607 | A provider known by id takes over exactly that row |
| ProviderSearches.PlaceNew | comicarr/config.py:2595-2612 | An unknown provider gets one fresh row, although the indexes do not learn of it |
| ProviderSearches.LoadEstablishesInv | comicarr/config.py:2529-2570 | The first pass adopts rows without an id and makes both indexes agree with the table completely |
| ProviderSearches.LoadKeepsUnique | comicarr/config.py:2534-2560 | With UNIQUE columns a first pass that does not raise leaves ids and names distinct |
| ProviderSearches.ReconcileIsIdempotent | comicarr/config.py:2518-2612 | Reconciling a committed table again changes nothing, with UNIQUE columns or without |
| ProviderSearches.CommittedIsSettled | comicarr/config.py:2534-2560 | After a commit no row is left that the first pass could still adopt |
| ProviderSearches.RaisesExactlyWhen | comicarr/config.py:2582-2612 | For every table and order the second pass raises if and only if some provider has its own row, not taken over before, while its id sits in a row of another name whose provider was not placed before |
| ProviderSearches.CommitsExactlyWhen | comicarr/config.py:2518-2612 | A whole reconciliation with UNIQUE columns commits if and only if the adopted rows are unique, every provider is known, and none collides |
| ProviderSearches.ExchangeOfIds | comicarr/tables.py:533-541 | Providers that pass ids around among themselves, in any table and order, always raise with UNIQUE columns; without, all end in place with their usage if every ordered provider has a row |
| ProviderSearches.TwoExchange | comicarr/config.py:2582-2594 | Two providers that are each to get the id in the other's row always raise |
| ProviderSearches.UpdatesInPlace | comicarr/config.py:2582-2594 | Without UNIQUE columns, providers that all have rows are updated in exactly those rows, whichever way their ids move |
| ProviderSearches.Projection.LoadRows | comicarr/config.py:2529-2570 | The table and both indexes after the first pass, or the exception |
| ProviderSearches.Projection.PlaceOrder | comicarr/config.py:2572-2612 | The table after placing the ordered providers in turn, or the exception for an unknown provider or a refused statement |
| ProviderSearches.Projection.WriteOut | comicarr/config.py:2518-2612 | The rows are the reconciled ones, or unchanged when the call raises |
| ProviderUpdate.CommittedUpdate | comicarr/config.py:1210-1218 | A provider update that returns True, of an order whose ids are apart: the order names different providers and each identified one has its row in the table |
| ProviderUpdate.PreparedOrderIsInjective | comicarr/config.py:1485-1491 | Preparation and ordering, for every previous order, establish the distinct identities the reconciliation needs, if and only if no id in use is 0 or a fixed id of another name in the order; and that is so when no configured provider has a built-in name |
| ProviderUpdate.OrderIsInjective | comicarr/config.py:2501-2516 | An order of different names is projected to different identities if and only if its ids are apart |
| ProviderUpdate.InjectiveExactlyWhen | comicarr/config.py:2501-2516 | Any order is projected to different identities if and only if its known names differ in more than case, none has the id 0, and none has the id another is always projected with |
| ProviderUpdate.FalseProwlarr | comicarr/config.py:2509-2510 | A provider called Prowlarr, while Prowlarr is off, and one with the id 202 get one identity number |
| ProviderUpdate.QuotedIsNeverProjected | comicarr/config.py:2386-2387 | A provider whose name ends in a quotation mark is listed under a name that is never identified as it |
| ProviderUpdate.EnabledDistinct | comicarr/config.py:842-879 | Reserved names keep built-in and configured providers apart in every order, also when a configured one has the name of a built-in one that is off |
| ProviderUpdate.FieldReread | comicarr/config.py:950-961 | A prepared option text read with an empty cache gives the runtime list again, if and only if it is not ambiguous |
| ProviderUpdate.CommittedOptionsReread | comicarr/config.py:1517-1534 | After a committed update the options written to the file read back as the runtime lists |
| AtomicReplace.Volume.AtomicReplaceFile | comicarr/config.py:1369-1401 | After any earlier calls, failed or not: at every point a crash leaves what it could have left before or the whole new content; afterwards exactly what Possible says of the run; and the temporary file is gone unless its unlink failed |
| AtomicReplace.PossibleExactly | comicarr/config.py:1369-1411 | Over any run of calls a crash can leave exactly the content of the last completed one, or the initial one, or that of a later call whose directory sync failed |
| AtomicReplace.CurrentIsPossible | comicarr/config.py:1388-1390 | What readers see after a run is among what a crash may leave |
| AtomicReplace.RenameNeedsSync | comicarr/config.py:1380-1388 | From any state an earlier call can leave, the rename is crash-safe if and only if the renamed file is synced with the new content or with one a crash could leave already |
| AtomicReplace.Volume.WriteTemp | comicarr/config.py:1373-1401 | Up to the rename nothing changes for crashes or readers, whichever step raises; a temporary file that is ready holds the synced content |
| AtomicReplace.Volume.RestoreConfigFile | comicarr/config.py:1312-1326 | A rollback, also after a failed directory sync, leaves the file alone if it already reads as before, and else, when it completes, leaves nothing but the previous content to a crash |
| AtomicReplace.Volume.RemoveTarget | comicarr/config.py:1323-1325 | Removing the file has the same outcomes for readers and crashes |
| MasterKey.InvStep | comicarr/encrypted.py:49-161 | Every step of every process keeps the protocol invariant |
| MasterKey.InvRun | comicarr/encrypted.py:49-161 | So does every interleaving with failures, crashes and power losses |
| MasterKey.LoserGetsKey | comicarr/encrypted.py:160-161 | A process that lost the publication and finds the key file is answered with the key in it, as not created |
| MasterKey.LoaderGetsKey | comicarr/encrypted.py:142-150 | A call that finds the key file is answered with its key, cached or not |
| MasterKey.PublisherGetsKey | comicarr/encrypted.py:127-155 | A process that published is answered with its own key, as created, and the entry is durable |
| MasterKey.LinkPublishes | comicarr/encrypted.py:112-129 | With links a complete temporary file is published exactly if no key file is there; otherwise the process has lost |
| MasterKey.LockPublishes | comicarr/encrypted.py:68-74 | The same under the lock |
| MasterKey.LinkRaceHasOneKey | comicarr/encrypted.py:83-161 | Two processes race with links: both calls return, and both with the winner's key |
| MasterKey.LockRaceHasOneKey | comicarr/encrypted.py:49-161 | Two processes race with the lock: both calls return, and both with the winner's key |
| MasterKey.NothingLeftBehind | comicarr/encrypted.py:67-139 | Over every interleaving with failures and crashes no lock stays with a process that is not using it, and no finished call keeps a temporary file |
| MasterKey.ReadersCreateNothing | comicarr/encrypted.py:142-154 | Calls that may not create the key never do, in any number and interleaving |
| MasterKey.KeyAgreement | comicarr/encrypted.py:142-161 | With uniform link support every key any call returned is the complete key in the file, over every interleaving with failures, crashes and power losses in which no power loss drops the entry of a returned key |
| MasterKey.AgreementThroughout | comicarr/encrypted.py:49-161 | The keys agree at every moment of a run if and only if no power loss drops the entry of a returned key |
| MasterKey.AgreementNeedsUniformLinks | comicarr/encrypted.py:49-80 | For every number of processes and every link support, all runs without power loss agree if and only if the support is uniform, and exactly then all runs keep the keys they created |
| MasterKey.MixedSupportBreaksAgreement | comicarr/encrypted.py:49-80 | For every process without links and every other one with them, a run that replaces a key already returned |
| MasterKey.KeyStable | comicarr/encrypted.py:83-139 | The key file, once present, never changes while the power stays on, and once synced never at all |
| MasterKey.CreatedKeysSurvivePowerLoss | comicarr/encrypted.py:120-139 | Keys returned by the calls that created them agree even across power losses |
| MasterKey.LoadedKeyCanBeLost | comicarr/encrypted.py:142-150 | A run that loses a key which was only loaded, when the power fails before the directory sync |
| Dedup.DeleteKeepsBest | comicarr/__init__.py:1716-1759 | Both forms of the statement keep the best row of each valid key and every other row, in order |
| Dedup.DeleteLeavesOnePerKey | comicarr/__init__.py:1716-1759 | Exactly one row of each valid key is left; rows with a null or empty key are untouched |
| Dedup.SurvivorIsBest | comicarr/__init__.py:1689-1713 | The survivor is the lexicographic maximum of location, status rank and row identity |
| Dedup.SurvivorPrefers | comicarr/__init__.py:1689-1713 | Against every row of its key the survivor has a file if that one has; at equal location it is finished if that one is, else at least snatched, attempted, or no stub; at equal status it is the newer |
| Dedup.DroppedHasSurvivor | comicarr/__init__.py:1716-1759 | Every dropped row has a valid key of which another row is kept |
| Dedup.DownloadedBeatsWanted | comicarr/__init__.py:1689-1700 | Of a Wanted and a Downloaded row with one location the Downloaded one is kept, whichever is newer |
| Dedup.DeleteIsIdempotent | comicarr/__init__.py:1716-1759 | A second deduplication deletes nothing |
| Dedup.HasBest | comicarr/__init__.py:1703-1713 | Every valid key has a best row, so the order never leaves a key empty |
| Dedup.MysqlDedup | comicarr/__init__.py:1762-1802 | The count-and-delete loop leaves one row per valid key whichever rows the engine deletes; if a statement raises, some keys are down to one row and the others untouched |
| Dedup.DuplicateList | comicarr/__init__.py:1775-1786 | The grouped counts: each duplicated valid key once, with its exact count |
| Dedup.OnePerKeyIsUnique | comicarr/__init__.py:1631-1639 | After deduplication the partial unique index always fits |
| Dedup.FullConstraintFits | comicarr/__init__.py:1805-1806 | The full constraint fits if and only if the original rows had no duplicates among the keys left out |
| Dedup.EmptyKeysStay | comicarr/__init__.py:1805-1806 | Two rows with an empty key, which deduplication leaves and the full constraint refuses |
| UniqueMigration.Database.Migrate | comicarr/__init__.py:1945-2086 | Normal return means every table found pending is enforced; each table has both halves or neither; nothing is deleted from a file-backed database without a backup; and exactly when a faultless call succeeds |
| UniqueMigration.MigratedRowIsPreferred | comicarr/__init__.py:1734-1759 | Location and status decide in the four library tables, where the columns exist and could be read; in every other table, and among rows alike in both, the newest row is kept |
| UniqueMigration.MigratedKeysStay | comicarr/__init__.py:1945-2086 | Whatever fails, a row that is gone left another row of its key in the table |
| UniqueMigration.Database.Install | comicarr/__init__.py:1998-2055 | One table: both halves, or the rows as before; in a caller's transaction or after MySQL's implicit commit also the deletions alone, and in a caller's transaction on MySQL a part of them |
| UniqueMigration.Database.Deduplicate | comicarr/__init__.py:2020-2028 | The deleting half: a single DELETE that raises has deleted nothing, MySQL's loop may have deleted for some keys |
| UniqueMigration.Database.Backup | comicarr/__init__.py:1809-1871 | Succeeds exactly when the pin exists or backup and pin copy succeed |
| UniqueMigration.Database.PendingConstraints | comicarr/__init__.py:1874-1885 | Lists each unenforced, inspectable table of the allowlist once |
| UniqueMigration.Database.Remaining | comicarr/__init__.py:1888-1904 | Lists every pending table that is unenforced or cannot be inspected |
| PagedMigration.MigrateTable | comicarr/db_migrate.py:306-349 | For every batch size of at least one the inserted rows are the first occurrences by cleaned key in stable order, each cleaned cell by cell; migrated plus dropped is the source count; the first insert that raises ends it and leaves exactly the pages before it, and without one it cannot fail |
| PagedMigration.CleanPage | comicarr/db_migrate.py:312-335 | One page extends the first occurrences exactly, carrying the keys seen |
| PagedMigration.CleanRowIs | comicarr/db_migrate.py:120-160 | By cell: NULL stays; a text is NULL if and only if it was "None"; a text in a number column becomes its number, or NULL if it is empty, "None" or no number; all else stays, in exactly the source columns that the target knows |
| PagedMigration.RepeatsExactlyWhen | comicarr/db_migrate.py:321-335 | A row is dropped if and only if an earlier one holds the same values, none of them NULL, in all key columns |
| PagedMigration.FirstOccurrencesAre | comicarr/db_migrate.py:318-335 | The rows kept are exactly those that repeat no key, in the order of the source |
| PagedMigration.NothingLost | comicarr/db_migrate.py:318-330 | Every source row, or an earlier one with its key, is migrated |
| PagedMigration.KeysMigratedOnce | comicarr/db_migrate.py:318-330 | No key without NULL is migrated twice |
| PagedMigration.KeptRowsComeFrom | comicarr/db_migrate.py:318-330 | Every migrated row is a cleaned source row |
| PagedMigration.VerdictOfCompleteTable | comicarr/db_migrate.py:362-389 | A completely migrated table passes if and only if its target was empty or held as many rows as were dropped |
| PagedMigration.StaleRowPasses | comicarr/db_migrate.py:362-389 | A migration into a target with a stale row whose counts agree |
| PagedMigration.Migrate | comicarr/db_migrate.py:240-400 | Success is reported if and only if nothing failed and every table's counts agree; from empty targets without failures it always is |
| RateLimiter.RunBound | comicarr/rate_limiter.py:39-69 | Over any run between calls, requests let through plus what is available at the end are at most what was available plus twice the rate times the time, with what is available limited to one token or not |
| RateLimiter.StepBound | comicarr/rate_limiter.py:53-69 | Each call, granted, refused or failed, pays for itself and keeps the tokens between 0 and 1 |
| RateLimiter.BoundFromConstruction | comicarr/rate_limiter.py:27-37 | From construction on, requests plus tokens plus the yield since the last refill are at most 1 plus twice the rate times the time; once, if the clock were read again after the sleep |
| RateLimiter.WindowBound | comicarr/rate_limiter.py:39-69 | In any window, wherever it starts, at most 2 plus twice the rate times its length |
| RateLimiter.BoundIsReached | comicarr/rate_limiter.py:53-67 | A run for every n in which 2n + 1 requests go through by time n / rate |
| RateLimiter.WindowBoundIsReached | comicarr/rate_limiter.py:53-67 | For every n a window with 2n + 2 requests that misses the bound by as little as one likes |
| RateLimiter.ComicVineRateLimiter.Acquire | comicarr/rate_limiter.py:39-69 | Tokens, refill time and outcome, including the deadline and a rate of zero or less |
| RateLimiter.AcquireAnswers | comicarr/rate_limiter.py:53-67 | A full token is handed out at once; else the call gives up if and only if the time left before its deadline would not bring what is missing, keeping what the refill brought; else it goes through and leaves none |
| RateLimiter.LetThroughInTime | comicarr/rate_limiter.py:53-67 | After any run a call with the lock and at least 1 / rate left before its deadline goes through |
| RateLimiter.LastRateCounts | comicarr/rate_limiter.py:71-79 | Changes of the rate between two calls keep tokens and refill time, and the next refill uses the last rate throughout |
| Placeholders.ConvertPositionalToNamed | comicarr/db.py:305-334 | The scanner, with flag and look-ahead, computes the recursive conversion |
| Placeholders.ConvertSubstitutes | comicarr/db.py:305-334 | The k-th question mark with an even number of quotes before it becomes :param_k, and every other character is copied |
| Placeholders.RestoreUndoesConvert | comicarr/db.py:305-334 | The conversion can be undone if and only if the query writes out no parameter and no placeholder is followed by a digit |
| Placeholders.ScanConverted | comicarr/db.py:305-334 | Reading the converted text finds exactly the numbered placeholders, or strictly fewer items |
| Binding.NamedBindingIsPositional | comicarr/db.py:336-341 | Binding by name is binding by position, with any number of arguments, if the query is Bindable; and with enough arguments only then |
| Binding.ReadConverted | comicarr/db.py:172-177 | In the converted text text() finds exactly the numbered placeholders if every character is read as meant, and otherwise something of another shape |
| Binding.BindableIsRead | comicarr/db.py:305-334 | That is so if and only if every placeholder stands apart and no parameter is written out, by the characters around each position |
| Binding.GluedToWord | comicarr/db.py:325-329 | A placeholder directly behind a word character is not bound |
| Binding.GluedToColon | comicarr/db.py:325-329 | A placeholder directly before a cast is not bound |
| CvCache.GetIsLookup | comicarr/cv_cache.py:98-140 | After any calls with any errors, get returns the last set response not cleared since, until it expires, and nothing otherwise |
| CvCache.OnlyWritesMatter | comicarr/cv_cache.py:98-208 | Get answers after a run as it would if only the successful sets and clears had happened: reads with their deletions, clear_expired with a stale time, and failed calls leave no trace in any response |
| CvCache.RunAgrees | comicarr/cv_cache.py:98-208 | The table agrees with the history on every URL throughout any run |
| CvCache.ValidEntriesCount | comicarr/cv_cache.py:210-244 | The reported valid count is the live entries plus those expiring now, so right if and only if there are none of these |
| CvCache.ExpiringEntryCounts | comicarr/cv_cache.py:222-236 | One entry that is counted as valid and that get does not return |
| CvCache.GetRemoves | comicarr/cv_cache.py:120-131 | A get removes the entry it finds expired, and no other |
| CvCache.ClearExpiredRemoves | comicarr/cv_cache.py:173-191 | clear_expired removes exactly the entries before its time and reports their number; failed, it removes nothing |
| CvCache.ClearAllRemoves | comicarr/cv_cache.py:193-208 | clear_all removes everything and reports the number; failed, nothing |
| CvCache.CVCache.GetStats | comicarr/cv_cache.py:210-244 | The counts add up, and the valid one is the live entries plus those expiring now |
| CvCache.CVCache.Get | comicarr/cv_cache.py:98-140 | Response and table after a get, with deletion on read and both faults |
| CvCache.CVCache.ClearExpired | comicarr/cv_cache.py:173-191 | Exactly the entries before the given time go, and are counted |
| TitleSweep.SweepIsFilter | comicarr/filechecker.py:1892-1961 | For every name that spells out none of the three escape sequences among the handlers the compared key is the name without separators, handler characters, number signs and the swept words it mentions |
| TitleSweep.SeriesSweepIsFilter | comicarr/filechecker.py:1924-1961 | The dash substitution of the series path makes no difference to that |
| TitleSweep.TitlesMatchExactlyWhen | comicarr/filechecker.py:1682-1688 | With ANNUALS_ON off, a watched title and a series name compare equal if and only if their filtered spellings agree |
| TitleSweep.SweptEverywhereExactlyWhen | comicarr/filechecker.py:1896-1902 | The key is the name with both words swept everywhere, if and only if the name mentions each word that it holds once number signs are dropped |
| TitleSweep.HashHidesWord | comicarr/filechecker.py:1896-1901 | "a#nd" is compared as "and", and not as nothing |
| TitleSweep.UnmentionedWordsStay | comicarr/filechecker.py:1896-1902 | A name that mentions neither word only loses characters |
| TitleSweep.RoundIsMark | comicarr/filechecker.py:1906-1912 | Overwriting all remembered positions again changes nothing: a round is the replacement of its own pattern |
| TitleSweep.RoundsAreOnePass | comicarr/filechecker.py:1905-1921 | All rounds together decide each position in one pass from the left |
| TitleSweep.SweepsAllHandlers | comicarr/filechecker.py:1896-1896 | Sweeping only the handlers that occur sweeps every handler character |
| TitleSweep.Replace | comicarr/filechecker.py:1892-1961 | The loops over handlers, words and accumulated positions compute the specified string |
| TitleSweep.FinishIs | comicarr/filechecker.py:1948-1959 | Repeated bars become one and a bar at the end is cut off before the placeholder characters go |
| Changelog.ParseChangelogText | comicarr/changelog_notes.py:113-174 | The line loop computes the scanner specification |
| Changelog.ParseIsGrammar | comicarr/changelog_notes.py:113-174 | For every text the state machine gives a section for each heading line and in it a bullet for each bullet line up to the next heading, with the blank and indented lines right below it; bucket headings, other lines and everything before the first heading are left out |
| Changelog.ParseRewritesPrint | comicarr/changelog_notes.py:113-174 | Reading a printed changelog gives the same versions, and the same bullets in order with every line rewritten, for any number of sections in normal form and any line transform |
| Changelog.LegacyHeading | comicarr/changelog_notes.py:44-44 | A heading of the older form, a version in brackets with a link and anything behind it, opens a section of that version |
| Changelog.ParseUndoesPrint | comicarr/changelog_notes.py:113-174 | With lines that the transform leaves alone, reading a printed changelog gives the same versions and bullets in order, for any number of sections in normal form |
| Changelog.ReleaseBodyUndoesPrint | comicarr/changelog_notes.py:177-204 | A release body of printed bullets without heading reads back as its section, every line rewritten |
| Changelog.ReleaseBodyIs | comicarr/changelog_notes.py:177-204 | For any body and tag: with headings, the first section of the tagged version that has bullets; without, the bullets of the body itself; nothing for an empty body or tag |
| Changelog.ParsedBulletsAreClean | comicarr/changelog_notes.py:171-174 | Whatever the text, no bullet is empty, padded or holds two blank lines in a row, so the final cleaning changes nothing |
| Changelog.BulletKept | comicarr/changelog_notes.py:127-135 | A bullet in normal form is published unchanged, with or without a blank line behind it |

## Left out

What the model does not capture:

- Render: the text of the configuration file is a fixed rendering of the parser, not the formatting of configparser; section headers are repeated and nothing is reread; beside RenderIsInjective the theorems use only that the same parser gives the same text.
- SetOption: parser sections and interpolation are reduced to "assignment number k raises"; missing sections are not modelled separately.
- ParseInt: int() is modelled for ASCII numerals with a sign and surrounding white space, without underscores or other scripts.
- CommittedUpdate: assumes that the ids of the order are apart (InjectiveExactlyWhen says when they are) and that no configured name ends in a quotation mark (QuotedIsNeverProjected says what happens to one).
- FieldReread: an absent credential comes back empty and commas in a category come back as '#', as the codec writes them; white space that configparser strips from option values is not modelled.
- NamedBindingIsPositional: parameters are found by the pattern of SQLAlchemy's text(), which this model states and the repository does not contain, for ASCII text; that text() drops a backslash before a colon, and that a driver may double per cent signs, is not modelled.
- SweepIsFilter: names are ASCII and spell out none of the three handlers that are escape sequences of six characters (backslash, u and four digits).
- TitlesMatchExactlyWhen: with ANNUALS_ON set the comparison first removes "annual" and "special" from the keys (comicarr/filechecker.py:1637-1672); that removal, and the alternate and decoded names, are not modelled.
- AssignProviderIds: an entry of seven fields has an integer id; the exception for one that int() refuses (comicarr/config.py:933-936) is not modelled.
- MigrateTable: a failed insert is one of the three database errors the migration catches; any other exception ends the whole migration and is not modelled.
- Absorb: the verify field is not cleared with the other legacy fields, since nothing reads it afterwards.
- Concurrency of configuration calls: they serialise on one lock, so runs are sequences of calls; nested transactions, an interrupt between the database commit and the return, and an interrupt inside the rollback handler are excluded.
- Windows branches, file modes, symbolic links, logging, notifications and the user interface.
- SQL engines and cryptography: begin/commit/rollback, UNIQUE checks, hard link and rename are atomic steps; encryption is a parameter with its inversion law.
- Index-name allocation of the unique migration (comicarr/__init__.py:1907-1942) is one fallible step.
- A table that `_pending_unique_constraints` cannot inspect is dropped from the migration silently; the migration theorem speaks of the tables found pending.
- A batch size of zero or less makes the paged migration loop forever; the theorems require at least one.
- `sections_in_range` and `get_release_notes`: a filter and a sort over versions ordered by the packaging library, easy beside the reader.
- `process_kwargs`, `configure`, `encrypt_items`: opaque code that may leave any runtime and any parser behind.
- `_load_provider_extra_credentials` and the sanitising of old backups: straight uses of the decoding and codec modelled here.
- Network clients, scrapers, file-name parsing heuristics, the import inbox and the schedulers.
