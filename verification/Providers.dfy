/**
 Provider records: the six or seven fields of one Newznab or Torznab entry, and the
 case-insensitive comparison of provider names.  Names are ASCII here.
 */
module Providers {
  import opened Options
  import opened Text

  datatype Fields = Fields(
    name: string,
    host: string,
    verify: bool,
    credential: Option<string>,
    category: string,
    enabled: bool)

  /** A stored entry: legacy entries have six fields and so no id. */
  datatype Entry = Entry(fields: Fields, id: Option<int>)

  /** A normalised entry. */
  datatype Provider = Provider(fields: Fields, id: int)

  /** The options that switch providers on. */
  datatype Switches = Switches(
    torrentSearch: bool,
    enable32p: bool,
    experimental: bool,
    ddl: bool,
    getcomics: bool,
    external: bool,
    newznab: bool,
    torznab: bool,
    prowlarr: bool)

  /** The name a provider goes by: its own, or its host when it has none. */
  function NameOf(f: Fields): string {
    if f.name == "" then f.host else f.name
  }

  /** The names of the providers differ in more than case. */
  predicate NamesDiffer(ps: seq<Provider>) {
    forall i, j :: 0 <= i < j < |ps| ==> Lower(NameOf(ps[i].fields)) != Lower(NameOf(ps[j].fields))
  }

  /** Normalised entries are entries. */
  function AsEntries(providers: seq<Provider>): (entries: seq<Entry>)
    ensures |entries| == |providers|
    ensures forall i :: 0 <= i < |entries| ==> entries[i] == Entry(providers[i].fields, Some(providers[i].id))
  {
    seq(|providers|, i requires 0 <= i < |providers| => Entry(providers[i].fields, Some(providers[i].id)))
  }
}
