/**
 Reconciliation of the provider-search table with the provider order
 (write_out_provider_searches): one database transaction that first adopts rows without an
 id and then places every ordered provider, steered by two in-memory indexes that are allowed
 to fall behind the table.
 */
module ProviderSearches {
  import opened Options
  import opened Providers
  import opened Text

  /** The bookkeeping columns that a rename must not lose. */
  datatype Usage = Usage(lastrun: Option<int>, active: Option<string>, hits: Option<int>)

  const FRESH: Usage := Usage(Some(0), Some("0"), Some(0))

  datatype Row = Row(id: Option<int>, provider: string, kind: string, usage: Usage)

  /** The columns of a row that the in-memory indexes are consulted for. */
  datatype Known = Known(id: Option<int>, provider: string, kind: string)

  datatype Identity = Identity(name: string, kind: string, id: int)

  /** The table inside the transaction and the indexes existing and existing_by_id. */
  datatype Work = Work(table: seq<Row>, existing: map<string, Known>, byId: map<int, Known>)

  function KnownRow(r: Row): Known {
    Known(r.id, r.provider, r.kind)
  }

  // ---------------------------------------------------------------- SQL statements

  /** The UNIQUE columns id and provider; NULL ids never conflict. */
  predicate Unique(t: seq<Row>) {
    && (forall i, j :: 0 <= i < j < |t| && t[i].id.Some? ==> t[i].id != t[j].id)
    && (forall i, j :: 0 <= i < j < |t| ==> t[i].provider != t[j].provider)
  }

  function Renamed(r: Row, c: Identity): Row {
    r.(id := Some(c.id), provider := c.name, kind := c.kind)
  }

  /** A row that has the id and type already stays as it is, name and all. */
  function Updated(r: Row, c: Identity): Row {
    if r.id == Some(c.id) && r.kind == c.kind then r else Renamed(r, c)
  }

  function UpdateByProvider(t: seq<Row>, provider: string, c: Identity): (t': seq<Row>)
    ensures |t'| == |t|
    ensures forall i :: 0 <= i < |t| ==> t'[i] == if t[i].provider == provider then Renamed(t[i], c) else t[i]
  {
    seq(|t|, i requires 0 <= i < |t| => if t[i].provider == provider then Renamed(t[i], c) else t[i])
  }

  function AdoptByProvider(t: seq<Row>, provider: string, c: Identity, hits: int): (t': seq<Row>)
    ensures |t'| == |t|
    ensures forall i :: 0 <= i < |t| ==> t'[i] == if t[i].provider == provider then Adopted(t[i], c, hits) else t[i]
  {
    seq(|t|, i requires 0 <= i < |t| => if t[i].provider == provider then Adopted(t[i], c, hits) else t[i])
  }

  function Adopted(r: Row, c: Identity, hits: int): Row {
    Renamed(r, c).(usage := r.usage.(hits := Some(hits)))
  }

  function UpdateById(t: seq<Row>, c: Identity): (t': seq<Row>)
    ensures |t'| == |t|
    ensures forall i :: 0 <= i < |t| ==>
              t'[i] == if t[i].id == Some(c.id) then Renamed(t[i], c).(usage := FRESH) else t[i]
  {
    seq(|t|, i requires 0 <= i < |t| => if t[i].id == Some(c.id) then Renamed(t[i], c).(usage := FRESH) else t[i])
  }

  /** INSERT ... ON CONFLICT (id): a row with the id keeps its name and gets the other values. */
  function Upsert(t: seq<Row>, c: Identity): seq<Row> {
    if exists i :: 0 <= i < |t| && t[i].id == Some(c.id) then
      seq(|t|, i requires 0 <= i < |t| =>
        if t[i].id == Some(c.id) then t[i].(kind := c.kind, usage := FRESH) else t[i])
    else t + [Row(Some(c.id), c.name, c.kind, FRESH)]
  }

  /** A statement raises when the columns are UNIQUE in this database and its result breaks that. */
  function Checked(w: Work, unique: bool): Option<Work> {
    if unique && !Unique(w.table) then None else Some(w)
  }

  // ---------------------------------------------------------------- the reconciliation

  const GETCOMICS := "DDL(GetComics)"
  const EXTERNAL := "DDL(External)"
  const PROWLARR := "Prowlarr"

  function FindEntry(provider: string, kind: string, entries: seq<Provider>): Option<Identity> {
    if entries == [] then None
    else if Lower(NameOf(entries[0].fields)) == Lower(provider) then
      Some(Identity(NameOf(entries[0].fields), kind, entries[0].id))
    else FindEntry(provider, kind, entries[1..])
  }

  /** _provider_search_identity; None where it raises ValueError. */
  function Identify(provider: string, newznabs: seq<Provider>, torznabs: seq<Provider>): Option<Identity> {
    if provider == GETCOMICS then Some(Identity(provider, "DDL", 200))
    else if provider == EXTERNAL then Some(Identity(provider, "DDL(External)", 201))
    else if Lower(provider) == "experimental" then Some(Identity("experimental", "experimental", 101))
    else if provider == PROWLARR then Some(Identity(provider, "torznab", 202))
    else
      var found := FindEntry(provider, "newznab", newznabs);
      if found.Some? then found else FindEntry(provider, "torznab", torznabs)
  }

  predicate Assigned(id: Option<int>) {
    id.Some? && id != Some(0)
  }

  /** One row of the first pass. */
  function LoadRow(w: Work, row: Row, newznabs: seq<Provider>, torznabs: seq<Provider>, unique: bool): Option<Work> {
    if Assigned(row.id) then
      Some(w.(existing := w.existing[Lower(row.provider) := KnownRow(row)],
              byId := w.byId[row.id.value := KnownRow(row)]))
    else
      match Identify(row.provider, newznabs, torznabs)
      case None => Some(w.(existing := w.existing[Lower(row.provider) := KnownRow(row)]))
      case Some(c) =>
        var known := Known(Some(c.id), c.name, c.kind);
        Checked(Work(AdoptByProvider(w.table, row.provider, c, row.usage.hits.GetOr(0)),
                     w.existing[Lower(c.name) := known],
                     if c.id != 0 then w.byId[c.id := known] else w.byId), unique)
  }

  function Load(w: Work, rows: seq<Row>, newznabs: seq<Provider>, torznabs: seq<Provider>, unique: bool): Option<Work> {
    if rows == [] then Some(w)
    else
      var before := Load(w, rows[..|rows| - 1], newznabs, torznabs, unique);
      if before.None? then None else LoadRow(before.value, rows[|rows| - 1], newznabs, torznabs, unique)
  }

  function Without<K, V>(m: map<K, V>, k: K): map<K, V> {
    m - {k}
  }

  /** existing_by_id.pop(previous, None) */
  function PopId(m: map<int, Known>, id: Option<int>): map<int, Known> {
    if id.None? then m else Without(m, id.value)
  }

  /** One identified provider of the second pass. */
  function Place(w: Work, c: Identity, unique: bool): Option<Work> {
    if Lower(c.name) in w.existing then
      var current := w.existing[Lower(c.name)];
      if current.id == Some(c.id) && current.kind == c.kind then Some(w)
      else
        var known := Known(Some(c.id), c.name, c.kind);
        Checked(Work(UpdateByProvider(w.table, current.provider, c),
                     w.existing[Lower(c.name) := known],
                     PopId(w.byId, current.id)[c.id := known]), unique)
    else if c.id in w.byId then
      var known := Known(Some(c.id), c.name, c.kind);
      Checked(Work(UpdateById(w.table, c),
                   Without(w.existing, Lower(w.byId[c.id].provider))[Lower(c.name) := known],
                   w.byId[c.id := known]), unique)
    else
      Checked(w.(table := Upsert(w.table, c)), unique)
  }

  /** Retired providers that an order may still name. */
  predicate NotProjected(provider: string) {
    Lower(provider) == "32p" || Lower(provider) == "public torrents"
  }

  /** The identities of the ordered providers; None where an unknown provider makes the pass raise. */
  function Identities(order: seq<string>, newznabs: seq<Provider>, torznabs: seq<Provider>): Option<seq<Identity>> {
    if order == [] then Some([])
    else
      var rest := Identities(order[..|order| - 1], newznabs, torznabs);
      var provider := order[|order| - 1];
      var c := Identify(provider, newznabs, torznabs);
      if rest.None? then None
      else if c.Some? then Some(rest.value + [c.value])
      else if NotProjected(provider) then rest
      else None
  }

  function PlaceAll(w: Work, cs: seq<Identity>, unique: bool): Option<Work> {
    if cs == [] then Some(w)
    else
      var before := PlaceAll(w, cs[..|cs| - 1], unique);
      if before.None? then None else Place(before.value, cs[|cs| - 1], unique)
  }

  /** The committed table, or None when the transaction raises and is rolled back. */
  function Reconcile(rows: seq<Row>, order: seq<string>, newznabs: seq<Provider>, torznabs: seq<Provider>,
                     unique: bool): Option<seq<Row>> {
    var loaded := Load(Work(rows, map[], map[]), rows, newznabs, torznabs, unique);
    var cs := Identities(order, newznabs, torznabs);
    if loaded.None? || cs.None? then None
    else
      var done := PlaceAll(loaded.value, cs.value, unique);
      if done.None? then None else Some(done.value.table)
  }

  // ---------------------------------------------------------------- invariants

  predicate DistinctNames(t: seq<Row>) {
    forall i, j :: 0 <= i < j < |t| ==> Lower(t[i].provider) != Lower(t[j].provider)
  }

  predicate DistinctIds(t: seq<Row>) {
    forall i, j :: 0 <= i < j < |t| && Assigned(t[i].id) ==> t[i].id != t[j].id
  }

  /** Identities of different providers share neither name (ignoring case) nor id. */
  predicate Injective(cs: seq<Identity>) {
    && (forall i :: 0 <= i < |cs| ==> cs[i].id != 0)
    && (forall i, j :: 0 <= i < j < |cs| ==> cs[i].id != cs[j].id && Lower(cs[i].name) != Lower(cs[j].name))
  }

  predicate OwnsId(cs: seq<Identity>, id: Option<int>) {
    exists k :: 0 <= k < |cs| && id == Some(cs[k].id)
  }

  predicate OwnsName(cs: seq<Identity>, name: string) {
    exists k :: 0 <= k < |cs| && Lower(cs[k].name) == name
  }

  predicate IsRowOf(r: Row, c: Identity) {
    r.id == Some(c.id) && r.kind == c.kind && Lower(r.provider) == Lower(c.name)
  }

  predicate HasRow(t: seq<Row>, c: Identity) {
    exists i :: 0 <= i < |t| && IsRowOf(t[i], c)
  }

  /** What existing knows is what the table holds. */
  predicate NamesAgree(w: Work, cs: seq<Identity>) {
    && (forall i :: 0 <= i < |w.table| && Lower(w.table[i].provider) in w.existing ==>
          w.existing[Lower(w.table[i].provider)] == KnownRow(w.table[i]))
    && (forall n :: n in w.existing ==> exists i :: 0 <= i < |w.table| && Lower(w.table[i].provider) == n)
    && (forall i :: 0 <= i < |w.table| ==>
          Lower(w.table[i].provider) in w.existing || OwnsName(cs, Lower(w.table[i].provider)))
  }

  /** existing_by_id agrees with the table on every id that no placed provider owns. */
  predicate IdsAgree(w: Work, cs: seq<Identity>) {
    && (forall i :: 0 <= i < |w.table| && Assigned(w.table[i].id) && !OwnsId(cs, w.table[i].id) ==>
          w.table[i].id.value in w.byId && w.byId[w.table[i].id.value] == KnownRow(w.table[i]))
    && (forall x :: x in w.byId && !OwnsId(cs, Some(x)) ==>
          exists i :: 0 <= i < |w.table| && w.table[i].id == Some(x))
    && (forall i, j :: 0 <= i < j < |w.table| && Assigned(w.table[i].id) && !OwnsId(cs, w.table[i].id) ==>
          w.table[i].id != w.table[j].id)
  }

  /** The loop invariant of the second pass after placing cs. */
  predicate Inv(w: Work, cs: seq<Identity>) {
    && DistinctNames(w.table)
    && NamesAgree(w, cs)
    && IdsAgree(w, cs)
    && (forall k :: 0 <= k < |cs| ==> HasRow(w.table, cs[k]))
  }

  lemma OwnsMore(cs: seq<Identity>, c: Identity)
    ensures forall id :: OwnsId(cs + [c], id) <==> OwnsId(cs, id) || id == Some(c.id)
    ensures forall n :: OwnsName(cs + [c], n) <==> OwnsName(cs, n) || n == Lower(c.name)
  {
    var all := cs + [c];
    forall id ensures OwnsId(all, id) <==> OwnsId(cs, id) || id == Some(c.id) {
      if OwnsId(cs, id) {
        var k :| 0 <= k < |cs| && id == Some(cs[k].id);
        assert all[k] == cs[k];
      }
      assert all[|cs|] == c;
    }
    forall n ensures OwnsName(all, n) <==> OwnsName(cs, n) || n == Lower(c.name) {
      if OwnsName(cs, n) {
        var k :| 0 <= k < |cs| && Lower(cs[k].name) == n;
        assert all[k] == cs[k];
      }
      assert all[|cs|] == c;
    }
  }

  /** A provider not placed yet. */
  predicate Fresh(cs: seq<Identity>, c: Identity) {
    c.id != 0 && !OwnsId(cs, Some(c.id)) && !OwnsName(cs, Lower(c.name))
  }

  lemma KeepsRows(t: seq<Row>, t': seq<Row>, cs: seq<Identity>, c: Identity)
    requires |t| <= |t'| && HasRow(t', c)
    requires forall k :: 0 <= k < |cs| ==> HasRow(t, cs[k])
    requires forall j :: 0 <= j < |t| && t'[j] != t[j] ==> !OwnsId(cs, t[j].id) || !OwnsName(cs, Lower(t[j].provider))
    ensures forall k :: 0 <= k < |cs + [c]| ==> HasRow(t', (cs + [c])[k])
  {
    forall k | 0 <= k < |cs| ensures HasRow(t', cs[k]) {
      var j :| 0 <= j < |t| && IsRowOf(t[j], cs[k]);
      assert OwnsId(cs, t[j].id) && OwnsName(cs, Lower(t[j].provider));
      assert IsRowOf(t'[j], cs[k]);
    }
  }

  /** The table as both updates leave it: row i becomes the row of c. */
  lemma RenameRow(w: Work, cs: seq<Identity>, c: Identity, i: nat, row: Row)
    requires Inv(w, cs) && Fresh(cs, c) && i < |w.table| && IsRowOf(row, c)
    requires !OwnsId(cs, w.table[i].id) || !OwnsName(cs, Lower(w.table[i].provider))
    requires forall j :: 0 <= j < |w.table| && Lower(w.table[j].provider) == Lower(c.name) ==> j == i
    ensures var t := w.table[i := row];
            DistinctNames(t) && forall k :: 0 <= k < |cs + [c]| ==> HasRow(t, (cs + [c])[k])
  {
    var t := w.table[i := row];
    assert IsRowOf(t[i], c);
    KeepsRows(w.table, t, cs, c);
  }

  lemma NamesAfterRename(w: Work, cs: seq<Identity>, c: Identity, i: nat, row: Row, t: Work)
    requires NamesAgree(w, cs) && i < |w.table| && IsRowOf(row, c)
    requires t.table == w.table[i := row] && DistinctNames(w.table) && DistinctNames(t.table)
    requires t.existing.Keys == w.existing.Keys - {Lower(w.table[i].provider)} + {Lower(c.name)}
    requires forall n :: n in t.existing && n != Lower(c.name) ==> t.existing[n] == w.existing[n]
    requires t.existing[Lower(c.name)] == KnownRow(row)
    ensures NamesAgree(t, cs + [c])
  {
    OwnsMore(cs, c);
    forall n | n in t.existing ensures exists j :: 0 <= j < |t.table| && Lower(t.table[j].provider) == n {
      if n == Lower(c.name) {
        assert Lower(t.table[i].provider) == n;
      } else {
        var j :| 0 <= j < |w.table| && Lower(w.table[j].provider) == n;
        assert Lower(t.table[j].provider) == n;
      }
    }
    forall j | 0 <= j < |t.table|
      ensures Lower(t.table[j].provider) in t.existing ==>
              t.existing[Lower(t.table[j].provider)] == KnownRow(t.table[j])
      ensures Lower(t.table[j].provider) in t.existing || OwnsName(cs + [c], Lower(t.table[j].provider))
    {
      var n := Lower(t.table[j].provider);
      if j != i {
        assert t.table[j] == w.table[j];
        assert n != Lower(t.table[i].provider) by { if i < j {} else {} }
        assert n != Lower(w.table[i].provider) by { if i < j {} else {} }
      }
    }
  }

  lemma IdsAfterRename(w: Work, cs: seq<Identity>, c: Identity, i: nat, row: Row, t: Work)
    requires IdsAgree(w, cs) && i < |w.table| && IsRowOf(row, c)
    requires t.table == w.table[i := row]
    requires forall x :: x in t.byId && x != c.id ==> x in w.byId && t.byId[x] == w.byId[x] && Some(x) != w.table[i].id
    requires forall x :: x in w.byId && Some(x) != w.table[i].id ==> x in t.byId
    ensures IdsAgree(t, cs + [c])
  {
    OwnsMore(cs, c);
    forall x | x in t.byId && !OwnsId(cs + [c], Some(x))
      ensures exists j :: 0 <= j < |t.table| && t.table[j].id == Some(x)
    {
      var j :| 0 <= j < |w.table| && w.table[j].id == Some(x);
      assert t.table[j].id == Some(x);
    }
    forall j | 0 <= j < |t.table| && Assigned(t.table[j].id) && !OwnsId(cs + [c], t.table[j].id)
      ensures t.table[j].id.value in t.byId && t.byId[t.table[j].id.value] == KnownRow(t.table[j])
    {
      var x := t.table[j].id.value;
      assert j != i && x != c.id by { assert t.table[j].id == Some(x); }
      assert !OwnsId(cs, w.table[j].id);
      assert w.table[i].id != w.table[j].id by { if i < j {} else {} }
    }
  }

  lemma InvAfterRename(w: Work, cs: seq<Identity>, c: Identity, i: nat, row: Row, t: Work)
    requires Inv(w, cs) && Fresh(cs, c) && i < |w.table| && IsRowOf(row, c) && t.table == w.table[i := row]
    requires !OwnsId(cs, w.table[i].id) || !OwnsName(cs, Lower(w.table[i].provider))
    requires forall j :: 0 <= j < |w.table| && Lower(w.table[j].provider) == Lower(c.name) ==> j == i
    requires t.existing.Keys == w.existing.Keys - {Lower(w.table[i].provider)} + {Lower(c.name)}
    requires forall n :: n in t.existing && n != Lower(c.name) ==> t.existing[n] == w.existing[n]
    requires t.existing[Lower(c.name)] == KnownRow(row)
    requires forall x :: x in t.byId && x != c.id ==> x in w.byId && t.byId[x] == w.byId[x] && Some(x) != w.table[i].id
    requires forall x :: x in w.byId && Some(x) != w.table[i].id ==> x in t.byId
    ensures Inv(t, cs + [c])
  {
    RenameRow(w, cs, c, i, row);
    NamesAfterRename(w, cs, c, i, row, t);
    IdsAfterRename(w, cs, c, i, row, t);
  }

  /** A provider whose name the index knows: its row gets the id and type. */
  lemma PlaceByName(w: Work, cs: seq<Identity>, c: Identity, i: nat)
    requires Inv(w, cs) && Fresh(cs, c)
    requires i < |w.table| && Lower(w.table[i].provider) == Lower(c.name) && Lower(c.name) in w.existing
    ensures var t := Place(w, c, false).value;
            && Inv(t, cs + [c])
            && t.table == w.table[i := Updated(w.table[i], c)] && t.table[i].usage == w.table[i].usage
  {
    var t := Place(w, c, false).value;
    var current := w.existing[Lower(c.name)];
    assert current == KnownRow(w.table[i]);
    var row := Updated(w.table[i], c);
    assert t.table == w.table[i := row];
    InvAfterRename(w, cs, c, i, row, t);
  }

  /** A provider whose id the index knows under another name: it takes that row over. */
  lemma PlaceById(w: Work, cs: seq<Identity>, c: Identity, i: nat)
    requires Inv(w, cs) && Fresh(cs, c)
    requires Lower(c.name) !in w.existing && i < |w.table| && w.table[i].id == Some(c.id)
    ensures var t := Place(w, c, false).value;
            && Inv(t, cs + [c])
            && t.table == w.table[i := Row(Some(c.id), c.name, c.kind, Usage(Some(0), Some("0"), Some(0)))]
  {
    assert !OwnsId(cs, w.table[i].id);
    var t := Place(w, c, false).value;
    var row := Renamed(w.table[i], c).(usage := FRESH);
    assert t.table == w.table[i := row];
    assert w.byId[c.id] == KnownRow(w.table[i]);
    InvAfterRename(w, cs, c, i, row, t);
  }

  lemma NamesAfterInsert(w: Work, cs: seq<Identity>, c: Identity, row: Row)
    requires NamesAgree(w, cs) && IsRowOf(row, c) && Lower(c.name) !in w.existing
    ensures NamesAgree(w.(table := w.table + [row]), cs + [c])
  {
    OwnsMore(cs, c);
    var t := w.(table := w.table + [row]);
    forall n | n in t.existing ensures exists j :: 0 <= j < |t.table| && Lower(t.table[j].provider) == n {
      var j :| 0 <= j < |w.table| && Lower(w.table[j].provider) == n;
      assert Lower(t.table[j].provider) == n;
    }
  }

  lemma IdsAfterInsert(w: Work, cs: seq<Identity>, c: Identity, row: Row)
    requires IdsAgree(w, cs) && IsRowOf(row, c)
    ensures IdsAgree(w.(table := w.table + [row]), cs + [c])
  {
    OwnsMore(cs, c);
    var t := w.(table := w.table + [row]);
    forall x | x in t.byId && !OwnsId(cs + [c], Some(x))
      ensures exists j :: 0 <= j < |t.table| && t.table[j].id == Some(x)
    {
      var j :| 0 <= j < |w.table| && w.table[j].id == Some(x);
      assert t.table[j].id == Some(x);
    }
  }

  lemma UpsertInserts(w: Work, cs: seq<Identity>, c: Identity)
    requires IdsAgree(w, cs) && Fresh(cs, c) && c.id !in w.byId
    ensures Upsert(w.table, c) == w.table + [Row(Some(c.id), c.name, c.kind, FRESH)]
  {
    assert Assigned(Some(c.id)) && !OwnsId(cs, Some(c.id));
  }

  /** A provider neither index knows: a fresh row, which the indexes do not learn about. */
  lemma PlaceNew(w: Work, cs: seq<Identity>, c: Identity)
    requires Inv(w, cs) && Fresh(cs, c)
    requires Lower(c.name) !in w.existing && c.id !in w.byId
    ensures var t := Place(w, c, false).value;
            && Inv(t, cs + [c])
            && t.table == w.table + [Row(Some(c.id), c.name, c.kind, Usage(Some(0), Some("0"), Some(0)))]
  {
    var row := Row(Some(c.id), c.name, c.kind, FRESH);
    UpsertInserts(w, cs, c);
    var t := w.(table := w.table + [row]);
    assert Place(w, c, false) == Some(t);
    assert IsRowOf(t.table[|w.table|], c);
    KeepsRows(w.table, t.table, cs, c);
    NamesAfterInsert(w, cs, c, row);
    IdsAfterInsert(w, cs, c, row);
  }

  // ---------------------------------------------------------------- the second pass

  /**
   What placing cs has kept of the table t0 it started from, row by row: rows of other
   providers are as they were, and a row loses its usage only when a provider of another name
   claims its id.
   */
  predicate Kept(t0: seq<Row>, t: seq<Row>, cs: seq<Identity>) {
    && |t0| <= |t|
    && (forall i :: 0 <= i < |t| && !OwnsName(cs, Lower(t[i].provider)) ==> i < |t0| && t[i] == t0[i])
    && (forall i :: 0 <= i < |t0| && !OwnsName(cs, Lower(t0[i].provider)) && !OwnsId(cs, t0[i].id) ==> t[i] == t0[i])
    && (forall i :: 0 <= i < |t0| && !ClaimedByOther(cs, t0[i]) ==>
          Lower(t[i].provider) == Lower(t0[i].provider) && t[i].usage == t0[i].usage)
  }

  predicate ClaimedByOther(cs: seq<Identity>, r: Row) {
    exists k :: 0 <= k < |cs| && r.id == Some(cs[k].id) && Lower(cs[k].name) != Lower(r.provider)
  }

  /** A row whose name belongs to a placed provider carries that provider's id. */
  lemma OwnedRow(w: Work, cs: seq<Identity>, i: nat)
    requires Inv(w, cs) && i < |w.table| && OwnsName(cs, Lower(w.table[i].provider))
    ensures OwnsId(cs, w.table[i].id)
  {
    var k :| 0 <= k < |cs| && Lower(cs[k].name) == Lower(w.table[i].provider);
    assert HasRow(w.table, cs[k]);
    var j :| 0 <= j < |w.table| && IsRowOf(w.table[j], cs[k]);
    assert j == i by { if i < j {} else if j < i {} }
  }

  lemma ClaimedMore(cs: seq<Identity>, c: Identity, r: Row)
    ensures ClaimedByOther(cs + [c], r) <==>
            ClaimedByOther(cs, r) || (r.id == Some(c.id) && Lower(c.name) != Lower(r.provider))
  {
    var all := cs + [c];
    if ClaimedByOther(cs, r) {
      var k :| 0 <= k < |cs| && r.id == Some(cs[k].id) && Lower(cs[k].name) != Lower(r.provider);
      assert all[k] == cs[k];
    }
    assert all[|cs|] == c;
  }

  lemma KeptAfterRename(t0: seq<Row>, t: seq<Row>, cs: seq<Identity>, c: Identity, i: nat, row: Row)
    requires Kept(t0, t, cs) && i < |t| && IsRowOf(row, c)
    requires if Lower(t[i].provider) == Lower(c.name) then row.usage == t[i].usage
             else t[i].id == Some(c.id) && i < |t0| && t[i] == t0[i]
    ensures Kept(t0, t[i := row], cs + [c])
  {
    OwnsMore(cs, c);
    forall j | 0 <= j < |t0| && !ClaimedByOther(cs + [c], t0[j])
      ensures Lower(t[i := row][j].provider) == Lower(t0[j].provider) && t[i := row][j].usage == t0[j].usage
    {
      ClaimedMore(cs, c, t0[j]);
    }
  }

  lemma KeptAfterInsert(t0: seq<Row>, t: seq<Row>, cs: seq<Identity>, c: Identity, row: Row)
    requires Kept(t0, t, cs) && IsRowOf(row, c)
    ensures Kept(t0, t + [row], cs + [c])
  {
    OwnsMore(cs, c);
    forall j | 0 <= j < |t0| && !ClaimedByOther(cs + [c], t0[j])
      ensures Lower(t[j].provider) == Lower(t0[j].provider) && t[j].usage == t0[j].usage
    {
      ClaimedMore(cs, c, t0[j]);
    }
  }

  lemma KeptByName(w: Work, cs: seq<Identity>, c: Identity, t0: seq<Row>)
    requires Inv(w, cs) && Fresh(cs, c) && Kept(t0, w.table, cs) && Lower(c.name) in w.existing
    ensures var t := Place(w, c, false).value; Inv(t, cs + [c]) && Kept(t0, t.table, cs + [c])
  {
    var i :| 0 <= i < |w.table| && Lower(w.table[i].provider) == Lower(c.name);
    PlaceByName(w, cs, c, i);
    KeptAfterRename(t0, w.table, cs, c, i, Updated(w.table[i], c));
  }

  lemma KeptById(w: Work, cs: seq<Identity>, c: Identity, t0: seq<Row>)
    requires Inv(w, cs) && Fresh(cs, c) && Kept(t0, w.table, cs)
    requires Lower(c.name) !in w.existing && c.id in w.byId
    ensures var t := Place(w, c, false).value; Inv(t, cs + [c]) && Kept(t0, t.table, cs + [c])
  {
    assert !OwnsId(cs, Some(c.id));
    var i :| 0 <= i < |w.table| && w.table[i].id == Some(c.id);
    PlaceById(w, cs, c, i);
    if OwnsName(cs, Lower(w.table[i].provider)) {
      OwnedRow(w, cs, i);
    }
    KeptAfterRename(t0, w.table, cs, c, i, Renamed(w.table[i], c).(usage := FRESH));
  }

  /** One provider, whichever branch it takes. */
  lemma PlaceStep(w: Work, cs: seq<Identity>, c: Identity, t0: seq<Row>)
    requires Inv(w, cs) && Fresh(cs, c) && Kept(t0, w.table, cs)
    ensures var t := Place(w, c, false).value; Inv(t, cs + [c]) && Kept(t0, t.table, cs + [c])
  {
    if Lower(c.name) in w.existing {
      KeptByName(w, cs, c, t0);
    } else if c.id in w.byId {
      KeptById(w, cs, c, t0);
    } else {
      PlaceNew(w, cs, c);
      KeptAfterInsert(t0, w.table, cs, c, Row(Some(c.id), c.name, c.kind, FRESH));
    }
  }

  /** Uniqueness checks decide whether a statement raises, not what it does. */
  lemma PlaceChecked(w: Work, c: Identity, unique: bool)
    requires Place(w, c, unique).Some?
    ensures Place(w, c, unique) == Place(w, c, false)
  {
  }

  lemma InjectiveFresh(cs: seq<Identity>)
    requires cs != [] && Injective(cs)
    ensures Injective(cs[..|cs| - 1]) && Fresh(cs[..|cs| - 1], cs[|cs| - 1])
  {
  }

  /** The last of the providers, whether or not the columns are UNIQUE. */
  lemma PlaceLast(w: Work, cs: seq<Identity>, t0: seq<Row>, unique: bool)
    requires cs != [] && Injective(cs) && Inv(w, cs[..|cs| - 1]) && Kept(t0, w.table, cs[..|cs| - 1])
    requires Place(w, cs[|cs| - 1], unique).Some?
    ensures var t := Place(w, cs[|cs| - 1], unique).value; Inv(t, cs) && Kept(t0, t.table, cs)
  {
    var n := |cs| - 1;
    InjectiveFresh(cs);
    PlaceChecked(w, cs[n], unique);
    PlaceStep(w, cs[..n], cs[n], t0);
    assert cs == cs[..n] + [cs[n]];
  }

  lemma PlaceAllLast(w: Work, cs: seq<Identity>, unique: bool)
    requires cs != [] && PlaceAll(w, cs, unique).Some?
    ensures PlaceAll(w, cs[..|cs| - 1], unique).Some?
    ensures PlaceAll(w, cs, unique) == Place(PlaceAll(w, cs[..|cs| - 1], unique).value, cs[|cs| - 1], unique)
  {
  }

  lemma {:induction false} PlaceAllKeepsInv(w: Work, cs: seq<Identity>, unique: bool)
    requires Inv(w, []) && Injective(cs) && PlaceAll(w, cs, unique).Some?
    ensures var t := PlaceAll(w, cs, unique).value; Inv(t, cs) && Kept(w.table, t.table, cs)
  {
    if cs != [] {
      var front := cs[..|cs| - 1];
      PlaceAllLast(w, cs, unique);
      assert Injective(front) by {
        InjectiveFresh(cs);
      }
      PlaceAllKeepsInv(w, front, unique);
      PlaceLast(PlaceAll(w, front, unique).value, cs, w.table, unique);
    }
  }

  // ---------------------------------------------------------------- the first pass

  function AdoptRow(r: Row, newznabs: seq<Provider>, torznabs: seq<Provider>): Row {
    if Assigned(r.id) then r
    else
      var c := Identify(r.provider, newznabs, torznabs);
      if c.None? then r else Adopted(r, c.value, r.usage.hits.GetOr(0))
  }

  /** A row without an id whose name is known gets id, canonical name and type; its hits are a number from then on. */
  lemma AdoptedRow(r: Row, newznabs: seq<Provider>, torznabs: seq<Provider>)
    ensures var a := AdoptRow(r, newznabs, torznabs);
            var c := Identify(r.provider, newznabs, torznabs);
            if (r.id.Some? && r.id.value != 0) || c.None? then a == r
            else
              && a.id == Some(c.value.id) && a.provider == c.value.name && a.kind == c.value.kind
              && a.usage.lastrun == r.usage.lastrun && a.usage.active == r.usage.active
              && a.usage.hits == (if r.usage.hits.Some? then r.usage.hits else Some(0))
  {
  }

  function AdoptAll(rows: seq<Row>, newznabs: seq<Provider>, torznabs: seq<Provider>): (t: seq<Row>)
    ensures |t| == |rows|
    ensures forall i :: 0 <= i < |rows| ==> t[i] == AdoptRow(rows[i], newznabs, torznabs)
  {
    seq(|rows|, i requires 0 <= i < |rows| => AdoptRow(rows[i], newznabs, torznabs))
  }

  lemma {:induction false} FindEntryFolds(provider: string, kind: string, entries: seq<Provider>)
    ensures var c := FindEntry(provider, kind, entries);
            c.Some? ==> && Lower(c.value.name) == Lower(provider)
                        && exists i :: 0 <= i < |entries| && entries[i].id == c.value.id
  {
    if entries != [] && Lower(NameOf(entries[0].fields)) != Lower(provider) {
      FindEntryFolds(provider, kind, entries[1..]);
      var c := FindEntry(provider, kind, entries);
      if c.Some? {
        var i :| 0 <= i < |entries[1..]| && entries[1..][i].id == c.value.id;
        assert entries[i + 1].id == c.value.id;
      }
    }
  }

  predicate NonzeroIds(entries: seq<Provider>) {
    forall i :: 0 <= i < |entries| ==> entries[i].id != 0
  }

  /** The canonical name differs from the given one at most in case. */
  lemma IdentifyFolds(provider: string, newznabs: seq<Provider>, torznabs: seq<Provider>)
    ensures var c := Identify(provider, newznabs, torznabs);
            c.Some? ==> && Lower(c.value.name) == Lower(provider)
                        && (NonzeroIds(newznabs) && NonzeroIds(torznabs) ==> c.value.id != 0)
  {
    FindEntryFolds(provider, "newznab", newznabs);
    FindEntryFolds(provider, "torznab", torznabs);
    assert Lower("experimental") == "experimental";
  }

  predicate LoadedNames(existing: map<string, Known>, adopted: seq<Row>, k: nat)
    requires k <= |adopted|
  {
    && (forall i :: 0 <= i < k ==>
          Lower(adopted[i].provider) in existing && existing[Lower(adopted[i].provider)] == KnownRow(adopted[i]))
    && (forall n :: n in existing ==> exists i :: 0 <= i < k && Lower(adopted[i].provider) == n)
  }

  predicate LoadedIds(byId: map<int, Known>, adopted: seq<Row>, k: nat)
    requires k <= |adopted|
  {
    && (forall i :: 0 <= i < k && Assigned(adopted[i].id) ==>
          adopted[i].id.value in byId && byId[adopted[i].id.value] == KnownRow(adopted[i]))
    && (forall x :: x in byId ==> exists i :: 0 <= i < k && adopted[i].id == Some(x))
  }

  /** The table and the indexes after reading the first k rows. */
  predicate Loaded(w: Work, rows: seq<Row>, adopted: seq<Row>, k: nat)
    requires k <= |rows| == |adopted|
  {
    && w.table == adopted[..k] + rows[k..]
    && LoadedNames(w.existing, adopted, k)
    && LoadedIds(w.byId, adopted, k)
  }

  lemma LoadName(existing: map<string, Known>, adopted: seq<Row>, k: nat)
    requires k < |adopted| && DistinctNames(adopted) && LoadedNames(existing, adopted, k)
    ensures LoadedNames(existing[Lower(adopted[k].provider) := KnownRow(adopted[k])], adopted, k + 1)
  {
    var after := existing[Lower(adopted[k].provider) := KnownRow(adopted[k])];
    forall n | n in after ensures exists i :: 0 <= i < k + 1 && Lower(adopted[i].provider) == n {
      if n != Lower(adopted[k].provider) {
        var i :| 0 <= i < k && Lower(adopted[i].provider) == n;
      }
    }
  }

  lemma LoadId(byId: map<int, Known>, adopted: seq<Row>, k: nat)
    requires k < |adopted| && DistinctIds(adopted) && LoadedIds(byId, adopted, k)
    ensures LoadedIds(if Assigned(adopted[k].id) then byId[adopted[k].id.value := KnownRow(adopted[k])] else byId,
                      adopted, k + 1)
  {
    var after := if Assigned(adopted[k].id) then byId[adopted[k].id.value := KnownRow(adopted[k])] else byId;
    forall x | x in after ensures exists i :: 0 <= i < k + 1 && adopted[i].id == Some(x) {
      if Some(x) != adopted[k].id {
        var i :| 0 <= i < k && adopted[i].id == Some(x);
      }
    }
  }

  lemma AdoptsOneRow(t: seq<Row>, k: nat, c: Identity, hits: int)
    requires k < |t| && forall i :: 0 <= i < |t| && i != k ==> t[i].provider != t[k].provider
    ensures AdoptByProvider(t, t[k].provider, c, hits) == t[k := Adopted(t[k], c, hits)]
  {
  }

  /** Adoption changes names in case only, so a partly adopted table has distinct names. */
  lemma PartlyAdoptedNames(rows: seq<Row>, k: nat, newznabs: seq<Provider>, torznabs: seq<Provider>)
    requires k <= |rows| && DistinctNames(rows)
    ensures DistinctNames(AdoptAll(rows, newznabs, torznabs)[..k] + rows[k..])
  {
    var t := AdoptAll(rows, newznabs, torznabs)[..k] + rows[k..];
    forall i | 0 <= i < |rows| ensures Lower(t[i].provider) == Lower(rows[i].provider) {
      IdentifyFolds(rows[i].provider, newznabs, torznabs);
    }
  }

  lemma LoadRowTable(w: Work, rows: seq<Row>, k: nat, newznabs: seq<Provider>, torznabs: seq<Provider>, unique: bool)
    requires k < |rows| && DistinctNames(rows)
    requires w.table == AdoptAll(rows, newznabs, torznabs)[..k] + rows[k..]
    requires LoadRow(w, rows[k], newznabs, torznabs, unique).Some?
    ensures LoadRow(w, rows[k], newznabs, torznabs, unique).value.table
         == AdoptAll(rows, newznabs, torznabs)[..k + 1] + rows[k + 1..]
  {
    var adopted := AdoptAll(rows, newznabs, torznabs);
    PartlyAdoptedNames(rows, k, newznabs, torznabs);
    assert adopted[..k + 1] + rows[k + 1..] == w.table[k := adopted[k]];
    var c := Identify(rows[k].provider, newznabs, torznabs);
    if !Assigned(rows[k].id) && c.Some? {
      assert w.table[k] == rows[k];
      AdoptsOneRow(w.table, k, c.value, rows[k].usage.hits.GetOr(0));
    }
  }

  lemma LoadInTurn(w: Work, rows: seq<Row>, k: nat, newznabs: seq<Provider>, torznabs: seq<Provider>, unique: bool)
    requires 0 < k <= |rows|
    ensures var before := Load(w, rows[..k - 1], newznabs, torznabs, unique);
            Load(w, rows[..k], newznabs, torznabs, unique)
              == if before.None? then None else LoadRow(before.value, rows[k - 1], newznabs, torznabs, unique)
  {
    assert rows[..k][..k - 1] == rows[..k - 1];
  }

  /** The table and the name index after reading rows, whatever their ids. */
  lemma {:induction false} LoadAllNames(rows: seq<Row>, k: nat, newznabs: seq<Provider>, torznabs: seq<Provider>,
                                        unique: bool)
    requires k <= |rows| && DistinctNames(rows)
    requires Load(Work(rows, map[], map[]), rows[..k], newznabs, torznabs, unique).Some?
    ensures var w := Load(Work(rows, map[], map[]), rows[..k], newznabs, torznabs, unique).value;
            var adopted := AdoptAll(rows, newznabs, torznabs);
            w.table == adopted[..k] + rows[k..] && LoadedNames(w.existing, adopted, k)
  {
    if k > 0 {
      LoadInTurn(Work(rows, map[], map[]), rows, k, newznabs, torznabs, unique);
      LoadAllNames(rows, k - 1, newznabs, torznabs, unique);
      AdoptedNames(rows, newznabs, torznabs);
      LoadNamesStep(Load(Work(rows, map[], map[]), rows[..k - 1], newznabs, torznabs, unique).value,
                    rows, k - 1, newznabs, torznabs, unique);
    }
  }

  lemma LoadNamesStep(w: Work, rows: seq<Row>, k: nat, newznabs: seq<Provider>, torznabs: seq<Provider>, unique: bool)
    requires k < |rows| && DistinctNames(rows) && DistinctNames(AdoptAll(rows, newznabs, torznabs))
    requires var adopted := AdoptAll(rows, newznabs, torznabs);
             w.table == adopted[..k] + rows[k..] && LoadedNames(w.existing, adopted, k)
    requires LoadRow(w, rows[k], newznabs, torznabs, unique).Some?
    ensures var t := LoadRow(w, rows[k], newznabs, torznabs, unique).value;
            var adopted := AdoptAll(rows, newznabs, torznabs);
            t.table == adopted[..k + 1] + rows[k + 1..] && LoadedNames(t.existing, adopted, k + 1)
  {
    var adopted := AdoptAll(rows, newznabs, torznabs);
    LoadRowTable(w, rows, k, newznabs, torznabs, unique);
    IdentifyFolds(rows[k].provider, newznabs, torznabs);
    LoadName(w.existing, adopted, k);
  }

  lemma LoadStep(w: Work, rows: seq<Row>, k: nat, newznabs: seq<Provider>, torznabs: seq<Provider>, unique: bool)
    requires k < |rows| && DistinctNames(rows)
    requires DistinctNames(AdoptAll(rows, newznabs, torznabs)) && DistinctIds(AdoptAll(rows, newznabs, torznabs))
    requires Loaded(w, rows, AdoptAll(rows, newznabs, torznabs), k)
    requires LoadRow(w, rows[k], newznabs, torznabs, unique).Some?
    ensures Loaded(LoadRow(w, rows[k], newznabs, torznabs, unique).value,
                   rows, AdoptAll(rows, newznabs, torznabs), k + 1)
  {
    var adopted := AdoptAll(rows, newznabs, torznabs);
    var t := LoadRow(w, rows[k], newznabs, torznabs, unique).value;
    LoadNamesStep(w, rows, k, newznabs, torznabs, unique);
    IdentifyFolds(rows[k].provider, newznabs, torznabs);
    var known := KnownRow(adopted[k]);
    assert t.byId == if Assigned(adopted[k].id) then w.byId[adopted[k].id.value := known] else w.byId;
    LoadId(w.byId, adopted, k);
  }

  lemma AdoptedNames(rows: seq<Row>, newznabs: seq<Provider>, torznabs: seq<Provider>)
    requires DistinctNames(rows)
    ensures DistinctNames(AdoptAll(rows, newznabs, torznabs))
  {
    var adopted := AdoptAll(rows, newznabs, torznabs);
    forall i | 0 <= i < |rows| ensures Lower(adopted[i].provider) == Lower(rows[i].provider) {
      IdentifyFolds(rows[i].provider, newznabs, torznabs);
    }
  }

  lemma {:induction false} LoadAll(rows: seq<Row>, k: nat, newznabs: seq<Provider>, torznabs: seq<Provider>,
                                   unique: bool)
    requires k <= |rows| && DistinctNames(rows)
    requires DistinctIds(AdoptAll(rows, newznabs, torznabs))
    requires Load(Work(rows, map[], map[]), rows[..k], newznabs, torznabs, unique).Some?
    ensures Loaded(Load(Work(rows, map[], map[]), rows[..k], newznabs, torznabs, unique).value,
                   rows, AdoptAll(rows, newznabs, torznabs), k)
  {
    AdoptedNames(rows, newznabs, torznabs);
    if k > 0 {
      assert rows[..k][..k - 1] == rows[..k - 1];
      LoadAll(rows, k - 1, newznabs, torznabs, unique);
      LoadStep(Load(Work(rows, map[], map[]), rows[..k - 1], newznabs, torznabs, unique).value,
               rows, k - 1, newznabs, torznabs, unique);
    }
  }

  /** After the first pass both indexes agree with the table completely. */
  lemma LoadEstablishesInv(rows: seq<Row>, newznabs: seq<Provider>, torznabs: seq<Provider>, unique: bool)
    requires DistinctNames(rows) && DistinctIds(AdoptAll(rows, newznabs, torznabs))
    requires Load(Work(rows, map[], map[]), rows, newznabs, torznabs, unique).Some?
    ensures var w := Load(Work(rows, map[], map[]), rows, newznabs, torznabs, unique).value;
            && w.table == AdoptAll(rows, newznabs, torznabs) && Inv(w, [])
            && (forall i :: 0 <= i < |w.table| ==> Lower(w.table[i].provider) in w.existing)
  {
    var n := |rows|;
    var adopted := AdoptAll(rows, newznabs, torznabs);
    assert rows[..n] == rows;
    LoadAll(rows, n, newznabs, torznabs, unique);
    var w := Load(Work(rows, map[], map[]), rows, newznabs, torznabs, unique).value;
    assert adopted[..n] + rows[n..] == adopted;
    AdoptedNames(rows, newznabs, torznabs);
  }

  // ---------------------------------------------------------------- what a committed reconciliation guarantees

  /** With UNIQUE columns a first pass that does not raise leaves the ids distinct. */
  lemma {:induction false} LoadKeepsUnique(rows: seq<Row>, k: nat, newznabs: seq<Provider>, torznabs: seq<Provider>)
    requires k <= |rows| && DistinctNames(rows) && Unique(rows)
    requires Load(Work(rows, map[], map[]), rows[..k], newznabs, torznabs, true).Some?
    ensures var t := Load(Work(rows, map[], map[]), rows[..k], newznabs, torznabs, true).value.table;
            t == AdoptAll(rows, newznabs, torznabs)[..k] + rows[k..] && Unique(t)
  {
    if k > 0 {
      assert rows[..k][..k - 1] == rows[..k - 1];
      LoadKeepsUnique(rows, k - 1, newznabs, torznabs);
      LoadRowTable(Load(Work(rows, map[], map[]), rows[..k - 1], newznabs, torznabs, true).value,
                   rows, k - 1, newznabs, torznabs, true);
    }
  }

  predicate CleanStart(rows: seq<Row>, newznabs: seq<Provider>, torznabs: seq<Provider>, unique: bool) {
    DistinctNames(rows) && if unique then Unique(rows) else DistinctIds(AdoptAll(rows, newznabs, torznabs))
  }

  /** Why ids must start distinct: a provider that takes over two rows by its id gives both of them its name. */
  lemma SharedIdMergesNames(w: Work, c: Identity, i: nat, j: nat)
    requires Lower(c.name) !in w.existing && c.id in w.byId
    requires i < j < |w.table| && w.table[i].id == w.table[j].id == Some(c.id)
    ensures Place(w, c, false).Some? && !DistinctNames(Place(w, c, false).value.table)
  {
    var t := Place(w, c, false).value.table;
    assert t[i].provider == t[j].provider;
  }

  lemma StartOfSecondPass(rows: seq<Row>, newznabs: seq<Provider>, torznabs: seq<Provider>, unique: bool)
    requires CleanStart(rows, newznabs, torznabs, unique)
    requires Load(Work(rows, map[], map[]), rows, newznabs, torznabs, unique).Some?
    ensures var w := Load(Work(rows, map[], map[]), rows, newznabs, torznabs, unique).value;
            && w.table == AdoptAll(rows, newznabs, torznabs) && Inv(w, []) && (unique ==> Unique(w.table))
            && (forall i :: 0 <= i < |w.table| ==> Lower(w.table[i].provider) in w.existing)
  {
    if unique {
      var n := |rows|;
      assert rows[..n] == rows;
      LoadKeepsUnique(rows, n, newznabs, torznabs);
      assert AdoptAll(rows, newznabs, torznabs)[..n] + rows[n..] == AdoptAll(rows, newznabs, torznabs);
    }
    LoadEstablishesInv(rows, newznabs, torznabs, unique);
  }

  lemma {:induction false} PlaceAllStaysUnique(w: Work, cs: seq<Identity>)
    requires Unique(w.table) && PlaceAll(w, cs, true).Some?
    ensures Unique(PlaceAll(w, cs, true).value.table)
  {
    if cs != [] {
      PlaceAllStaysUnique(w, cs[..|cs| - 1]);
    }
  }

  /**
   The main theorem.  When the transaction commits, every ordered provider has a row with its
   name (up to case), type and id; row names stay distinct; and Kept says, row by row, what
   every other row and every usage record keeps.
   */
  lemma CommittedProjection(rows: seq<Row>, order: seq<string>, newznabs: seq<Provider>, torznabs: seq<Provider>,
                            unique: bool)
    requires CleanStart(rows, newznabs, torznabs, unique)
    requires Reconcile(rows, order, newznabs, torznabs, unique).Some?
    requires Injective(Identities(order, newznabs, torznabs).value)
    ensures var t := Reconcile(rows, order, newznabs, torznabs, unique).value;
            var cs := Identities(order, newznabs, torznabs).value;
            && (forall k :: 0 <= k < |cs| ==> HasRow(t, cs[k]))
            && DistinctNames(t) && (unique ==> Unique(t))
            && Kept(AdoptAll(rows, newznabs, torznabs), t, cs)
  {
    StartOfSecondPass(rows, newznabs, torznabs, unique);
    var w := Load(Work(rows, map[], map[]), rows, newznabs, torznabs, unique).value;
    PlaceAllKeepsInv(w, Identities(order, newznabs, torznabs).value, unique);
    if unique {
      PlaceAllStaysUnique(w, Identities(order, newznabs, torznabs).value);
    }
  }

  lemma {:induction false} IdentitiesNonzero(order: seq<string>, newznabs: seq<Provider>, torznabs: seq<Provider>)
    requires NonzeroIds(newznabs) && NonzeroIds(torznabs) && Identities(order, newznabs, torznabs).Some?
    ensures var cs := Identities(order, newznabs, torznabs).value;
            forall k :: 0 <= k < |cs| ==> cs[k].id != 0
  {
    if order != [] {
      IdentitiesNonzero(order[..|order| - 1], newznabs, torznabs);
      IdentifyFolds(order[|order| - 1], newznabs, torznabs);
    }
  }

  lemma {:induction false} PlaceAllSettled(w: Work, cs: seq<Identity>, unique: bool)
    requires NamesAgree(w, [])
    requires forall k :: 0 <= k < |cs| ==> HasRow(w.table, cs[k])
    ensures PlaceAll(w, cs, unique) == Some(w)
  {
    if cs != [] {
      var n := |cs| - 1;
      PlaceAllSettled(w, cs[..n], unique);
      var i :| 0 <= i < |w.table| && IsRowOf(w.table[i], cs[n]);
      assert !OwnsName([], Lower(w.table[i].provider));
      assert w.existing[Lower(cs[n].name)] == KnownRow(w.table[i]);
    }
  }

  lemma {:induction false} LoadSettled(w: Work, rows: seq<Row>, newznabs: seq<Provider>, torznabs: seq<Provider>,
                                       unique: bool)
    requires forall i :: 0 <= i < |rows| ==>
               Assigned(rows[i].id) || Identify(rows[i].provider, newznabs, torznabs).None?
    ensures Load(w, rows, newznabs, torznabs, unique).Some?
  {
    if rows != [] {
      LoadSettled(w, rows[..|rows| - 1], newznabs, torznabs, unique);
    }
  }

  /** No unassigned row of a committed projection can be identified any more. */
  lemma NothingLeftToAdopt(rows: seq<Row>, t: seq<Row>, cs: seq<Identity>, newznabs: seq<Provider>,
                           torznabs: seq<Provider>, i: nat)
    requires NonzeroIds(newznabs) && NonzeroIds(torznabs)
    requires Kept(AdoptAll(rows, newznabs, torznabs), t, cs) && i < |t|
    requires OwnsName(cs, Lower(t[i].provider)) ==> Assigned(t[i].id)
    ensures Assigned(t[i].id) || Identify(t[i].provider, newznabs, torznabs).None?
  {
    if !OwnsName(cs, Lower(t[i].provider)) {
      IdentifyFolds(rows[i].provider, newznabs, torznabs);
    }
  }

  lemma CommittedIsSettled(rows: seq<Row>, order: seq<string>, newznabs: seq<Provider>, torznabs: seq<Provider>,
                           unique: bool)
    requires CleanStart(rows, newznabs, torznabs, unique) && NonzeroIds(newznabs) && NonzeroIds(torznabs)
    requires Reconcile(rows, order, newznabs, torznabs, unique).Some?
    requires Injective(Identities(order, newznabs, torznabs).value)
    ensures var t := Reconcile(rows, order, newznabs, torznabs, unique).value;
            forall i :: 0 <= i < |t| ==> Assigned(t[i].id) || Identify(t[i].provider, newznabs, torznabs).None?
  {
    var cs := Identities(order, newznabs, torznabs).value;
    StartOfSecondPass(rows, newznabs, torznabs, unique);
    var w := Load(Work(rows, map[], map[]), rows, newznabs, torznabs, unique).value;
    PlaceAllKeepsInv(w, cs, unique);
    var done := PlaceAll(w, cs, unique).value;
    forall i | 0 <= i < |done.table|
      ensures Assigned(done.table[i].id) || Identify(done.table[i].provider, newznabs, torznabs).None?
    {
      if OwnsName(cs, Lower(done.table[i].provider)) {
        OwnedRow(done, cs, i);
      }
      NothingLeftToAdopt(rows, done.table, cs, newznabs, torznabs, i);
    }
  }

  /** Reading a table with nothing left to adopt fills the name index and changes nothing. */
  lemma LoadOfSettled(t: seq<Row>, newznabs: seq<Provider>, torznabs: seq<Provider>, unique: bool)
    requires DistinctNames(t)
    requires forall i :: 0 <= i < |t| ==> Assigned(t[i].id) || Identify(t[i].provider, newznabs, torznabs).None?
    ensures var w := Load(Work(t, map[], map[]), t, newznabs, torznabs, unique);
            w.Some? && w.value.table == t && NamesAgree(w.value, [])
  {
    LoadSettled(Work(t, map[], map[]), t, newznabs, torznabs, unique);
    assert AdoptAll(t, newznabs, torznabs) == t && t[..|t|] == t;
    LoadAllNames(t, |t|, newznabs, torznabs, unique);
  }

  /** Reconciling a committed projection again, with the same providers, changes nothing. */
  lemma ReconcileIsIdempotent(rows: seq<Row>, order: seq<string>, newznabs: seq<Provider>, torznabs: seq<Provider>,
                              unique: bool)
    requires CleanStart(rows, newznabs, torznabs, unique) && NonzeroIds(newznabs) && NonzeroIds(torznabs)
    requires Reconcile(rows, order, newznabs, torznabs, unique).Some?
    requires Injective(Identities(order, newznabs, torznabs).value)
    ensures var t := Reconcile(rows, order, newznabs, torznabs, unique).value;
            Reconcile(t, order, newznabs, torznabs, unique) == Some(t)
  {
    var t := Reconcile(rows, order, newznabs, torznabs, unique).value;
    CommittedProjection(rows, order, newznabs, torznabs, unique);
    CommittedIsSettled(rows, order, newznabs, torznabs, unique);
    LoadOfSettled(t, newznabs, torznabs, unique);
    PlaceAllSettled(Load(Work(t, map[], map[]), t, newznabs, torznabs, unique).value,
                    Identities(order, newznabs, torznabs).value, unique);
  }

  // ---------------------------------------------------------------- spelling

  /**
   Every row of a placed provider is spelled as the provider is or stands as it did in t0, and
   a row of t0 that already was the provider's stands.
   */
  predicate Spelled(t0: seq<Row>, t: seq<Row>, cs: seq<Identity>) {
    && |t0| <= |t|
    && (forall i, k :: 0 <= i < |t| && 0 <= k < |cs| && IsRowOf(t[i], cs[k]) ==>
          t[i].provider == cs[k].name || (i < |t0| && t[i] == t0[i]))
    && (forall i, k :: 0 <= i < |t0| && 0 <= k < |cs| && IsRowOf(t0[i], cs[k]) ==> t[i] == t0[i])
  }

  /** The step of c turns row i into row; c's name is new to the placed ones. */
  lemma SpelledAfterRename(t0: seq<Row>, t: seq<Row>, cs: seq<Identity>, c: Identity, i: nat, row: Row)
    requires Spelled(t0, t, cs) && Kept(t0, t, cs) && Fresh(cs, c) && i < |t| && IsRowOf(row, c)
    requires if IsRowOf(t[i], c) then row == t[i] else row.provider == c.name
    requires forall j :: 0 <= j < |t| && Lower(t[j].provider) == Lower(c.name) ==> j == i
    requires Lower(t[i].provider) == Lower(c.name) || t[i].id == Some(c.id)
    ensures Spelled(t0, t[i := row], cs + [c])
  {
    var u := t[i := row];
    var all := cs + [c];
    forall j, k | 0 <= j < |u| && 0 <= k < |all| && IsRowOf(u[j], all[k])
      ensures u[j].provider == all[k].name || (j < |t0| && u[j] == t0[j])
    {
      if j == i {
        assert !OwnsId(cs, u[j].id);
        assert IsRowOf(t[i], c) ==> !OwnsName(cs, Lower(t[i].provider));
      } else {
        assert k < |cs|;
      }
    }
    forall j, k | 0 <= j < |t0| && 0 <= k < |all| && IsRowOf(t0[j], all[k]) ensures u[j] == t0[j] {
      if k < |cs| {
        assert t[j] == t0[j] && OwnsId(cs, t[j].id) && OwnsName(cs, Lower(t[j].provider));
        assert j != i;
      } else {
        assert t[j] == t0[j];
      }
    }
  }

  lemma SpelledAfterInsert(t0: seq<Row>, t: seq<Row>, cs: seq<Identity>, c: Identity, row: Row)
    requires Spelled(t0, t, cs) && Kept(t0, t, cs) && Fresh(cs, c) && IsRowOf(row, c) && row.provider == c.name
    requires forall j :: 0 <= j < |t| ==> Lower(t[j].provider) != Lower(c.name)
    ensures Spelled(t0, t + [row], cs + [c])
  {
    var u := t + [row];
    var all := cs + [c];
    forall j, k | 0 <= j < |u| && 0 <= k < |all| && IsRowOf(u[j], all[k])
      ensures u[j].provider == all[k].name || (j < |t0| && u[j] == t0[j])
    {
      if j == |t| {
        assert !OwnsId(cs, u[j].id);
      } else {
        assert u[j] == t[j] && k < |cs|;
      }
    }
    forall j, k | 0 <= j < |t0| && 0 <= k < |all| && IsRowOf(t0[j], all[k]) ensures u[j] == t0[j] {
      if k == |cs| {
        assert t[j] == t0[j];
      }
    }
  }

  /** No row carries the name of a provider that the index does not know yet. */
  lemma UnknownName(w: Work, cs: seq<Identity>, c: Identity)
    requires NamesAgree(w, cs) && Fresh(cs, c) && Lower(c.name) !in w.existing
    ensures forall j :: 0 <= j < |w.table| ==> Lower(w.table[j].provider) != Lower(c.name)
  {
  }

  lemma SpellingByName(w: Work, cs: seq<Identity>, c: Identity, t0: seq<Row>)
    requires Inv(w, cs) && Fresh(cs, c) && Kept(t0, w.table, cs) && Spelled(t0, w.table, cs)
    requires Lower(c.name) in w.existing
    ensures Spelled(t0, Place(w, c, false).value.table, cs + [c])
  {
    var i :| 0 <= i < |w.table| && Lower(w.table[i].provider) == Lower(c.name);
    PlaceByName(w, cs, c, i);
    SpelledAfterRename(t0, w.table, cs, c, i, Updated(w.table[i], c));
  }

  lemma SpellingElsewhere(w: Work, cs: seq<Identity>, c: Identity, t0: seq<Row>)
    requires Inv(w, cs) && Fresh(cs, c) && Kept(t0, w.table, cs) && Spelled(t0, w.table, cs)
    requires Lower(c.name) !in w.existing
    ensures Spelled(t0, Place(w, c, false).value.table, cs + [c])
  {
    UnknownName(w, cs, c);
    if c.id in w.byId {
      assert !OwnsId(cs, Some(c.id));
      var i :| 0 <= i < |w.table| && w.table[i].id == Some(c.id);
      PlaceById(w, cs, c, i);
      SpelledAfterRename(t0, w.table, cs, c, i, Renamed(w.table[i], c).(usage := FRESH));
    } else {
      PlaceNew(w, cs, c);
      SpelledAfterInsert(t0, w.table, cs, c, Row(Some(c.id), c.name, c.kind, FRESH));
    }
  }

  lemma SpellingOfLast(v: Work, cs: seq<Identity>, t0: seq<Row>, unique: bool)
    requires cs != [] && Injective(cs) && Inv(v, cs[..|cs| - 1])
    requires Kept(t0, v.table, cs[..|cs| - 1]) && Spelled(t0, v.table, cs[..|cs| - 1])
    requires Place(v, cs[|cs| - 1], unique).Some?
    ensures Spelled(t0, Place(v, cs[|cs| - 1], unique).value.table, cs)
  {
    var front := cs[..|cs| - 1];
    var c := cs[|cs| - 1];
    InjectiveFresh(cs);
    PlaceChecked(v, c, unique);
    if Lower(c.name) in v.existing {
      SpellingByName(v, front, c, t0);
    } else {
      SpellingElsewhere(v, front, c, t0);
    }
    assert cs == front + [c];
  }

  lemma {:induction false} PlaceAllSpelling(w: Work, cs: seq<Identity>, unique: bool)
    requires Inv(w, []) && Injective(cs) && PlaceAll(w, cs, unique).Some?
    ensures Spelled(w.table, PlaceAll(w, cs, unique).value.table, cs)
  {
    if cs != [] {
      var front := cs[..|cs| - 1];
      PlaceAllLast(w, cs, unique);
      assert Injective(front) by {
        InjectiveFresh(cs);
      }
      PlaceAllKeepsInv(w, front, unique);
      PlaceAllSpelling(w, front, unique);
      SpellingOfLast(PlaceAll(w, front, unique).value, cs, w.table, unique);
    }
  }

  /** The provider had its row, with id and type, under a spelling of its own. */
  predicate OtherSpelling(t: seq<Row>, c: Identity) {
    exists i :: 0 <= i < |t| && IsRowOf(t[i], c) && t[i].provider != c.name
  }

  /**
   Canonical names: the row of an ordered provider is spelled exactly as the provider is, if and
   only if no adopted row was already the provider's under another spelling.
   */
  lemma CommittedSpelling(rows: seq<Row>, order: seq<string>, newznabs: seq<Provider>, torznabs: seq<Provider>,
                          unique: bool, k: nat, i: nat)
    requires CleanStart(rows, newznabs, torznabs, unique)
    requires Reconcile(rows, order, newznabs, torznabs, unique).Some?
    requires Injective(Identities(order, newznabs, torznabs).value)
    requires k < |Identities(order, newznabs, torznabs).value|
    requires i < |Reconcile(rows, order, newznabs, torznabs, unique).value|
    requires IsRowOf(Reconcile(rows, order, newznabs, torznabs, unique).value[i],
                     Identities(order, newznabs, torznabs).value[k])
    ensures var c := Identities(order, newznabs, torznabs).value[k];
            Reconcile(rows, order, newznabs, torznabs, unique).value[i].provider == c.name
            <==> !OtherSpelling(AdoptAll(rows, newznabs, torznabs), c)
  {
    var cs := Identities(order, newznabs, torznabs).value;
    var t0 := AdoptAll(rows, newznabs, torznabs);
    StartOfSecondPass(rows, newznabs, torznabs, unique);
    var w := Load(Work(rows, map[], map[]), rows, newznabs, torznabs, unique).value;
    PlaceAllKeepsInv(w, cs, unique);
    PlaceAllSpelling(w, cs, unique);
    var t := PlaceAll(w, cs, unique).value.table;
    SpelledMeans(t0, t, cs, k, i);
  }

  lemma SpelledMeans(t0: seq<Row>, t: seq<Row>, cs: seq<Identity>, k: nat, i: nat)
    requires Spelled(t0, t, cs) && DistinctNames(t) && k < |cs| && i < |t| && IsRowOf(t[i], cs[k])
    ensures t[i].provider == cs[k].name <==> !OtherSpelling(t0, cs[k])
  {
    if OtherSpelling(t0, cs[k]) {
      var j :| 0 <= j < |t0| && IsRowOf(t0[j], cs[k]) && t0[j].provider != cs[k].name;
      assert t[j] == t0[j];
      assert j == i by { if i < j {} else if j < i {} }
    }
  }

  /** A row with the provider's id and type keeps the spelling it has. */
  lemma SpellingIsKept(w: Work, row: Row, c: Identity, unique: bool)
    requires w.table == [row] && NamesAgree(w, [])
    requires IsRowOf(row, c) && row.provider != c.name
    ensures PlaceAll(w, [c], unique) == Some(w)
  {
    assert w.table[0] == row && !OwnsName([], Lower(row.provider));
    assert [c][..0] == [];
    assert PlaceAll(w, [], unique) == Some(w);
  }

  /** The row "foo" of the provider "Foo". */
  lemma FooStaysFoo(kind: string, usage: Usage)
    ensures var row := Row(Some(7), "foo", kind, usage);
            var w := Work([row], map["foo" := KnownRow(row)], map[7 := KnownRow(row)]);
            && Inv(w, []) && Unique(w.table)
            && PlaceAll(w, [Identity("Foo", kind, 7)], true) == Some(w)
  {
    var row := Row(Some(7), "foo", kind, usage);
    var w := Work([row], map["foo" := KnownRow(row)], map[7 := KnownRow(row)]);
    assert Lower("foo") == "foo" && Lower("Foo") == "foo";
    assert w.table[0] == row;
    SpellingIsKept(w, row, Identity("Foo", kind, 7), true);
  }

  // ---------------------------------------------------------------- when the transaction raises

  /** The provider's own row, unless an earlier provider has taken it over by its id. */
  predicate HasOwnRow(t0: seq<Row>, placed: seq<Identity>, c: Identity) {
    exists i :: 0 <= i < |t0| && Lower(t0[i].provider) == Lower(c.name) && !OwnsId(placed, t0[i].id)
  }

  /** The provider's id in a row of another name, unless that one was placed, and left it, earlier. */
  predicate IdIsHeld(t0: seq<Row>, placed: seq<Identity>, c: Identity) {
    exists j :: 0 <= j < |t0| && t0[j].id == Some(c.id) && Lower(t0[j].provider) != Lower(c.name)
                && !OwnsName(placed, Lower(t0[j].provider))
  }

  /** Placing c after the others gives its row an id that another row still holds. */
  predicate Collides(t0: seq<Row>, placed: seq<Identity>, c: Identity) {
    HasOwnRow(t0, placed, c) && IdIsHeld(t0, placed, c)
  }

  lemma RenameStaysUnique(t: seq<Row>, i: nat, row: Row)
    requires i < |t| && Unique(t) && DistinctNames(t[i := row])
    requires forall j :: 0 <= j < |t| && j != i ==> t[j].id != row.id
    ensures Unique(t[i := row])
  {
    var u := t[i := row];
    forall j, k | 0 <= j < k < |u| ensures u[j].provider != u[k].provider {
      assert Lower(u[j].provider) != Lower(u[k].provider);
    }
  }

  lemma InsertStaysUnique(w: Work, cs: seq<Identity>, c: Identity)
    requires IdsAgree(w, cs) && Fresh(cs, c) && Unique(w.table) && c.id !in w.byId
    requires DistinctNames(w.table + [Row(Some(c.id), c.name, c.kind, FRESH)])
    ensures Unique(w.table + [Row(Some(c.id), c.name, c.kind, FRESH)])
  {
    var u := w.table + [Row(Some(c.id), c.name, c.kind, FRESH)];
    assert Assigned(Some(c.id)) && !OwnsId(cs, Some(c.id));
    forall j, k | 0 <= j < k < |u| ensures u[j].provider != u[k].provider {
      assert Lower(u[j].provider) != Lower(u[k].provider);
    }
  }

  /** A row under the name of a provider still to come stands as it did at the start. */
  lemma OwnRowStands(w: Work, cs: seq<Identity>, c: Identity, t0: seq<Row>, i: nat)
    requires Inv(w, cs) && Fresh(cs, c) && Kept(t0, w.table, cs) && Unique(w.table)
    requires i < |w.table| && Lower(w.table[i].provider) == Lower(c.name)
    ensures i < |t0| && w.table[i] == t0[i] && !OwnsId(cs, t0[i].id)
  {
    forall k | 0 <= k < |cs| ensures w.table[i].id != Some(cs[k].id) {
      assert HasRow(w.table, cs[k]);
      var j :| 0 <= j < |w.table| && IsRowOf(w.table[j], cs[k]);
      assert j != i;
    }
  }

  /** So does the row of another name that holds the id of a provider still to come. */
  lemma HolderStands(w: Work, cs: seq<Identity>, c: Identity, t0: seq<Row>, j: nat)
    requires Inv(w, cs) && Fresh(cs, c) && Kept(t0, w.table, cs)
    requires j < |w.table| && w.table[j].id == Some(c.id)
    ensures j < |t0| && w.table[j] == t0[j] && !OwnsName(cs, Lower(t0[j].provider))
  {
    if OwnsName(cs, Lower(w.table[j].provider)) {
      OwnedRow(w, cs, j);
    }
  }

  lemma HolderAmong(w: Work, cs: seq<Identity>, c: Identity, t0: seq<Row>, i: nat)
    requires Inv(w, cs) && Fresh(cs, c) && Kept(t0, w.table, cs)
    requires i < |w.table| && Lower(w.table[i].provider) == Lower(c.name)
    ensures IdIsHeld(t0, cs, c) <==> exists j :: 0 <= j < |w.table| && j != i && w.table[j].id == Some(c.id)
  {
    if IdIsHeld(t0, cs, c) {
      var j :| 0 <= j < |t0| && t0[j].id == Some(c.id) && Lower(t0[j].provider) != Lower(c.name)
               && !OwnsName(cs, Lower(t0[j].provider));
      assert w.table[j] == t0[j];
    }
    if j :| 0 <= j < |w.table| && j != i && w.table[j].id == Some(c.id) {
      HolderStands(w, cs, c, t0, j);
      assert Lower(t0[j].provider) != Lower(c.name) by { if i < j {} else {} }
    }
  }

  lemma RenameUniqueExactly(t: seq<Row>, i: nat, row: Row)
    requires i < |t| && Unique(t) && DistinctNames(t[i := row]) && row.id.Some?
    ensures Unique(t[i := row]) <==> !exists j :: 0 <= j < |t| && j != i && t[j].id == row.id
  {
    var u := t[i := row];
    if j :| 0 <= j < |t| && j != i && t[j].id == row.id {
      assert u[j].id == u[i].id;
      assert !Unique(u) by { if i < j {} else {} }
    } else {
      RenameStaysUnique(t, i, row);
    }
  }

  lemma UpdateIsUnique(w: Work, cs: seq<Identity>, c: Identity, t0: seq<Row>, i: nat)
    requires Inv(w, cs) && Fresh(cs, c) && Kept(t0, w.table, cs) && Unique(w.table)
    requires i < |w.table| && Lower(w.table[i].provider) == Lower(c.name)
    ensures Unique(w.table[i := Updated(w.table[i], c)]) <==> !Collides(t0, cs, c)
  {
    assert DistinctNames(w.table[i := Updated(w.table[i], c)]);
    assert HasOwnRow(t0, cs, c) by {
      OwnRowStands(w, cs, c, t0, i);
    }
    HolderAmong(w, cs, c, t0, i);
    RenameUniqueExactly(w.table, i, Updated(w.table[i], c));
  }

  lemma PlaceByNameRaises(w: Work, cs: seq<Identity>, c: Identity, t0: seq<Row>)
    requires Inv(w, cs) && Fresh(cs, c) && Kept(t0, w.table, cs) && Unique(w.table) && Lower(c.name) in w.existing
    ensures Unique(Place(w, c, false).value.table) <==> !Collides(t0, cs, c)
  {
    var i :| 0 <= i < |w.table| && Lower(w.table[i].provider) == Lower(c.name);
    PlaceByName(w, cs, c, i);
    UpdateIsUnique(w, cs, c, t0, i);
  }

  lemma NoOwnRow(w: Work, cs: seq<Identity>, c: Identity, t0: seq<Row>)
    requires Kept(t0, w.table, cs) && Fresh(cs, c)
    requires forall j :: 0 <= j < |w.table| ==> Lower(w.table[j].provider) != Lower(c.name)
    ensures !HasOwnRow(t0, cs, c)
  {
    forall i | 0 <= i < |t0| && Lower(t0[i].provider) == Lower(c.name) ensures OwnsId(cs, t0[i].id) {
      assert Lower(w.table[i].provider) != Lower(c.name);
    }
  }

  lemma PlaceElsewhere(w: Work, cs: seq<Identity>, c: Identity, t0: seq<Row>)
    requires Inv(w, cs) && Fresh(cs, c) && Kept(t0, w.table, cs) && Unique(w.table) && Lower(c.name) !in w.existing
    ensures Unique(Place(w, c, false).value.table) && !Collides(t0, cs, c)
  {
    UnknownName(w, cs, c);
    NoOwnRow(w, cs, c, t0);
    if c.id in w.byId {
      assert !OwnsId(cs, Some(c.id));
      var i :| 0 <= i < |w.table| && w.table[i].id == Some(c.id);
      PlaceById(w, cs, c, i);
      assert forall j :: 0 <= j < |w.table| && j != i ==> w.table[j].id != w.table[i].id;
      RenameStaysUnique(w.table, i, Place(w, c, false).value.table[i]);
    } else {
      PlaceNew(w, cs, c);
      InsertStaysUnique(w, cs, c);
    }
  }

  /** One provider raises exactly when it collides. */
  lemma PlaceRaises(w: Work, cs: seq<Identity>, c: Identity, t0: seq<Row>)
    requires Inv(w, cs) && Fresh(cs, c) && Kept(t0, w.table, cs) && Unique(w.table)
    ensures Place(w, c, true).None? <==> Collides(t0, cs, c)
  {
    if Lower(c.name) in w.existing {
      PlaceByNameRaises(w, cs, c, t0);
    } else {
      PlaceElsewhere(w, cs, c, t0);
    }
    assert Place(w, c, true).None? ==> !Unique(Place(w, c, false).value.table);
  }

  predicate SomeCollision(t0: seq<Row>, cs: seq<Identity>) {
    exists k :: 0 <= k < |cs| && Collides(t0, cs[..k], cs[k])
  }

  lemma SomeCollisionLast(t0: seq<Row>, cs: seq<Identity>)
    requires cs != []
    ensures var n := |cs| - 1;
            SomeCollision(t0, cs) <==> SomeCollision(t0, cs[..n]) || Collides(t0, cs[..n], cs[n])
  {
    var n := |cs| - 1;
    assert forall k :: 0 <= k < n ==> cs[..n][..k] == cs[..k];
  }

  /**
   With UNIQUE columns the second pass raises if and only if some provider collides: it has a
   row of its own, its id sits in the row of another name, and no provider before it has taken
   the one or freed the other.
   */
  lemma {:induction false} RaisesExactlyWhen(w: Work, cs: seq<Identity>)
    requires Inv(w, []) && Unique(w.table) && Injective(cs)
    ensures PlaceAll(w, cs, true).None? <==> SomeCollision(w.table, cs)
  {
    if cs != [] {
      var n := |cs| - 1;
      InjectiveFresh(cs);
      RaisesExactlyWhen(w, cs[..n]);
      SomeCollisionLast(w.table, cs);
      if PlaceAll(w, cs[..n], true).Some? {
        PlaceAllKeepsInv(w, cs[..n], true);
        PlaceAllStaysUnique(w, cs[..n]);
        PlaceRaises(PlaceAll(w, cs[..n], true).value, cs[..n], cs[n], w.table);
      }
    }
  }

  lemma {:induction false} LoadRaises(rows: seq<Row>, k: nat, newznabs: seq<Provider>, torznabs: seq<Provider>)
    requires k <= |rows| && DistinctNames(rows) && Unique(rows) && NonzeroIds(newznabs) && NonzeroIds(torznabs)
    requires Unique(AdoptAll(rows, newznabs, torznabs))
    ensures Load(Work(rows, map[], map[]), rows[..k], newznabs, torznabs, true).Some?
  {
    if k > 0 {
      assert rows[..k][..k - 1] == rows[..k - 1];
      LoadRaises(rows, k - 1, newznabs, torznabs);
      LoadKeepsUnique(rows, k - 1, newznabs, torznabs);
      var w := Load(Work(rows, map[], map[]), rows[..k - 1], newznabs, torznabs, true).value;
      LoadRowUnchecked(w, rows, k - 1, newznabs, torznabs);
      LoadRowTable(w, rows, k - 1, newznabs, torznabs, false);
      PartlyAdoptedUnique(rows, k, newznabs, torznabs);
    }
  }

  lemma LoadRowUnchecked(w: Work, rows: seq<Row>, k: nat, newznabs: seq<Provider>, torznabs: seq<Provider>)
    requires k < |rows| && Unique(w.table)
    ensures LoadRow(w, rows[k], newznabs, torznabs, false).Some?
    ensures Unique(LoadRow(w, rows[k], newznabs, torznabs, false).value.table) ==>
              LoadRow(w, rows[k], newznabs, torznabs, true) == LoadRow(w, rows[k], newznabs, torznabs, false)
  {
  }

  lemma PartlyAdoptedUnique(rows: seq<Row>, k: nat, newznabs: seq<Provider>, torznabs: seq<Provider>)
    requires k <= |rows| && DistinctNames(rows) && Unique(rows) && NonzeroIds(newznabs) && NonzeroIds(torznabs)
    requires Unique(AdoptAll(rows, newznabs, torznabs))
    ensures Unique(AdoptAll(rows, newznabs, torznabs)[..k] + rows[k..])
  {
    var adopted := AdoptAll(rows, newznabs, torznabs);
    var t := adopted[..k] + rows[k..];
    forall i | 0 <= i < |rows|
      ensures t[i] == (if i < k then adopted[i] else rows[i]) && Lower(t[i].provider) == Lower(rows[i].provider)
      ensures t[i].id == adopted[i].id || (t[i].id == rows[i].id && !Assigned(t[i].id))
      ensures Assigned(adopted[i].id) || adopted[i].id == rows[i].id
    {
      IdentifyFolds(rows[i].provider, newznabs, torznabs);
    }
    assert forall i, j :: 0 <= i < j < |t| ==> Lower(t[i].provider) != Lower(t[j].provider);
  }

  /** With UNIQUE columns a reconciliation commits exactly when neither pass collides. */
  lemma CommitsExactlyWhen(rows: seq<Row>, order: seq<string>, newznabs: seq<Provider>, torznabs: seq<Provider>)
    requires CleanStart(rows, newznabs, torznabs, true) && NonzeroIds(newznabs) && NonzeroIds(torznabs)
    requires var cs := Identities(order, newznabs, torznabs); cs.Some? ==> Injective(cs.value)
    ensures var cs := Identities(order, newznabs, torznabs);
            var t0 := AdoptAll(rows, newznabs, torznabs);
            Reconcile(rows, order, newznabs, torznabs, true).Some?
            <==> Unique(t0) && cs.Some? && !SomeCollision(t0, cs.value)
  {
    assert rows[..|rows|] == rows;
    if Unique(AdoptAll(rows, newznabs, torznabs)) {
      LoadRaises(rows, |rows|, newznabs, torznabs);
    }
    if Load(Work(rows, map[], map[]), rows, newznabs, torznabs, true).Some? {
      StartOfSecondPass(rows, newznabs, torznabs, true);
      var cs := Identities(order, newznabs, torznabs);
      if cs.Some? {
        RaisesExactlyWhen(Load(Work(rows, map[], map[]), rows, newznabs, torznabs, true).value, cs.value);
      }
    }
  }

  // ---------------------------------------------------------------- providers that exchange ids

  predicate IdAmong(cs: seq<Identity>, s: set<nat>, id: Option<int>) {
    exists m :: m in s && m < |cs| && id == Some(cs[m].id)
  }

  predicate NameAmong(cs: seq<Identity>, s: set<nat>, name: string) {
    exists m :: m in s && m < |cs| && name == Lower(cs[m].name)
  }

  /** The provider has a row, and the id in it is now that of one of s. */
  predicate GivesId(t: seq<Row>, cs: seq<Identity>, s: set<nat>, c: Identity) {
    exists i :: 0 <= i < |t| && Lower(t[i].provider) == Lower(c.name) && IdAmong(cs, s, t[i].id)
  }

  /** The provider's id sits in the row of another one of s. */
  predicate TakesId(t: seq<Row>, cs: seq<Identity>, s: set<nat>, c: Identity) {
    exists j :: 0 <= j < |t| && t[j].id == Some(c.id) && Lower(t[j].provider) != Lower(c.name)
                && NameAmong(cs, s, Lower(t[j].provider))
  }

  predicate PassesId(t: seq<Row>, cs: seq<Identity>, s: set<nat>, k: nat) {
    k < |cs| && GivesId(t, cs, s, cs[k]) && TakesId(t, cs, s, cs[k])
  }

  /** Some of the ordered providers pass their ids around among themselves. */
  predicate Exchange(t: seq<Row>, cs: seq<Identity>, s: set<nat>) {
    s != {} && forall k {:trigger PassesId(t, cs, s, k)} :: k in s ==> PassesId(t, cs, s, k)
  }

  lemma Least(s: set<nat>) returns (k: nat)
    requires s != {}
    ensures k in s && forall m :: m in s ==> k <= m
    decreases s
  {
    var x :| x in s;
    k := x;
    if s != {x} {
      var m := Least(s - {x});
      k := if m < x then m else x;
      forall n | n in s ensures k <= n {
        if n != x {
          assert n in s - {x};
        }
      }
    }
  }

  lemma NoneBefore(cs: seq<Identity>, s: set<nat>, k: nat)
    requires Injective(cs) && k <= |cs| && forall m :: m in s ==> k <= m
    ensures forall id :: IdAmong(cs, s, id) ==> !OwnsId(cs[..k], id)
    ensures forall name :: NameAmong(cs, s, name) ==> !OwnsName(cs[..k], name)
  {
  }

  /** The first member of the exchange to be placed collides. */
  lemma ExchangeCollides(t0: seq<Row>, cs: seq<Identity>, s: set<nat>)
    requires Injective(cs) && Exchange(t0, cs, s)
    ensures SomeCollision(t0, cs)
  {
    var k := Least(s);
    assert PassesId(t0, cs, s, k);
    NoneBefore(cs, s, k);
    assert Collides(t0, cs[..k], cs[k]);
  }

  predicate HasNamedRow(t: seq<Row>, c: Identity) {
    exists i :: 0 <= i < |t| && Lower(t[i].provider) == Lower(c.name)
  }

  predicate AllNamed(t: seq<Row>, cs: seq<Identity>) {
    forall k {:trigger HasNamedRow(t, cs[k])} :: 0 <= k < |cs| ==> HasNamedRow(t, cs[k])
  }

  /** The row under the provider's name has got its id, type and name in place. */
  predicate InPlace(t0: seq<Row>, t: seq<Row>, c: Identity)
    requires |t| == |t0|
  {
    forall i :: 0 <= i < |t0| && Lower(t0[i].provider) == Lower(c.name) ==> t[i] == Updated(t0[i], c)
  }

  predicate AllInPlace(t0: seq<Row>, t: seq<Row>, cs: seq<Identity>) {
    && |t| == |t0|
    && (forall i :: 0 <= i < |t0| && !OwnsName(cs, Lower(t0[i].provider)) ==> t[i] == t0[i])
    && (forall k :: 0 <= k < |cs| ==> InPlace(t0, t, cs[k]))
  }

  lemma InPlaceStep(t0: seq<Row>, t: seq<Row>, cs: seq<Identity>, c: Identity, i: nat)
    requires AllInPlace(t0, t, cs) && Fresh(cs, c) && DistinctNames(t0)
    requires i < |t0| && Lower(t0[i].provider) == Lower(c.name)
    ensures t[i] == t0[i]
    ensures AllInPlace(t0, t[i := Updated(t0[i], c)], cs + [c])
  {
    OwnsMore(cs, c);
    var u := t[i := Updated(t0[i], c)];
    assert InPlace(t0, u, c) by {
      assert forall j :: 0 <= j < |t0| && Lower(t0[j].provider) == Lower(c.name) ==> j == i;
    }
    forall k | 0 <= k < |cs| ensures InPlace(t0, u, cs[k]) {
      assert InPlace(t0, t, cs[k]);
      assert Lower(cs[k].name) != Lower(c.name);
    }
  }

  /** One provider with a row of its name, without UNIQUE columns. */
  lemma PlaceInPlace(v: Work, cs: seq<Identity>, c: Identity, t0: seq<Row>, i: nat)
    requires Inv(v, cs) && Fresh(cs, c) && Lower(c.name) in v.existing
    requires i < |v.table| == |t0| && v.table[i] == t0[i] && Lower(t0[i].provider) == Lower(c.name)
    ensures var t := Place(v, c, false);
            && t.Some? && v.existing.Keys <= t.value.existing.Keys
            && t.value.table == v.table[i := Updated(t0[i], c)]
  {
    PlaceByName(v, cs, c, i);
  }

  /** The last of the providers, if it has a row of its name. */
  lemma LastInPlace(t0: seq<Row>, t: seq<Row>, cs: seq<Identity>) returns (i: nat)
    requires cs != [] && Injective(cs) && AllInPlace(t0, t, cs[..|cs| - 1]) && DistinctNames(t0)
    requires HasNamedRow(t0, cs[|cs| - 1])
    ensures i < |t0| && t[i] == t0[i] && Lower(t0[i].provider) == Lower(cs[|cs| - 1].name)
    ensures AllInPlace(t0, t[i := Updated(t0[i], cs[|cs| - 1])], cs)
  {
    var front := cs[..|cs| - 1];
    var c := cs[|cs| - 1];
    i :| 0 <= i < |t0| && Lower(t0[i].provider) == Lower(c.name);
    InjectiveFresh(cs);
    InPlaceStep(t0, t, front, c, i);
    assert cs == front + [c];
  }

  lemma NamedIsKnown(w: Work, c: Identity)
    requires NamesAgree(w, []) && HasNamedRow(w.table, c)
    ensures Lower(c.name) in w.existing
  {
    var i :| 0 <= i < |w.table| && Lower(w.table[i].provider) == Lower(c.name);
    assert !OwnsName([], Lower(w.table[i].provider));
  }

  lemma AllNamedFront(t: seq<Row>, cs: seq<Identity>)
    requires cs != [] && AllNamed(t, cs)
    ensures AllNamed(t, cs[..|cs| - 1]) && HasNamedRow(t, cs[|cs| - 1])
  {
    var front := cs[..|cs| - 1];
    forall k | 0 <= k < |front| ensures HasNamedRow(t, front[k]) {
      assert HasNamedRow(t, cs[k]);
    }
  }

  /**
   Without UNIQUE columns providers that all have a row are updated in place, whichever way their
   ids move: each row keeps its usage, and no row is added or taken over.
   */
  lemma {:induction false} UpdatesInPlace(w: Work, cs: seq<Identity>)
    requires Inv(w, []) && Injective(cs) && AllNamed(w.table, cs)
    ensures var t := PlaceAll(w, cs, false);
            t.Some? && AllInPlace(w.table, t.value.table, cs) && w.existing.Keys <= t.value.existing.Keys
  {
    if cs != [] {
      var front := cs[..|cs| - 1];
      assert Injective(front) by {
        InjectiveFresh(cs);
      }
      AllNamedFront(w.table, cs);
      UpdatesInPlace(w, front);
      var v := PlaceAll(w, front, false).value;
      assert Inv(v, front) by {
        PlaceAllKeepsInv(w, front, false);
      }
      NamedIsKnown(w, cs[|cs| - 1]);
      var i := LastInPlace(w.table, v.table, cs);
      assert Fresh(front, cs[|cs| - 1]) by {
        InjectiveFresh(cs);
      }
      PlaceInPlace(v, front, cs[|cs| - 1], w.table, i);
    }
  }

  /**
   Providers that exchange ids, among any others and in any order.  With UNIQUE columns the
   reconciliation always raises; without them the indexes survive the moments when two rows hold
   one id, and if every provider has a row all of them end in place with their usage.
   */
  lemma ExchangeOfIds(w: Work, cs: seq<Identity>, s: set<nat>)
    requires Inv(w, []) && Unique(w.table) && Injective(cs) && Exchange(w.table, cs, s)
    ensures PlaceAll(w, cs, true).None?
    ensures AllNamed(w.table, cs) ==>
              PlaceAll(w, cs, false).Some? && AllInPlace(w.table, PlaceAll(w, cs, false).value.table, cs)
  {
    RaisesExactlyWhen(w, cs);
    ExchangeCollides(w.table, cs, s);
    if AllNamed(w.table, cs) {
      UpdatesInPlace(w, cs);
    }
  }

  lemma GivesAndTakes(t: seq<Row>, cs: seq<Identity>, s: set<nat>, p: nat, q: nat, i: nat, j: nat)
    requires p < |cs| && q < |cs| && q in s && Lower(cs[p].name) != Lower(cs[q].name)
    requires i < |t| && t[i].id == Some(cs[q].id) && Lower(t[i].provider) == Lower(cs[p].name)
    requires j < |t| && t[j].id == Some(cs[p].id) && Lower(t[j].provider) == Lower(cs[q].name)
    ensures PassesId(t, cs, s, p)
  {
    assert IdAmong(cs, s, t[i].id) && NameAmong(cs, s, Lower(t[j].provider));
    assert GivesId(t, cs, s, cs[p]) && TakesId(t, cs, s, cs[p]);
  }

  /** The simplest exchange: each of two providers is to get the id in the other's row. */
  lemma TwoExchange(w: Work, cs: seq<Identity>, p: nat, q: nat, i: nat, j: nat)
    requires Inv(w, []) && Unique(w.table) && Injective(cs) && p < |cs| && q < |cs| && p != q
    requires i < |w.table| && w.table[i].id == Some(cs[q].id) && Lower(w.table[i].provider) == Lower(cs[p].name)
    requires j < |w.table| && w.table[j].id == Some(cs[p].id) && Lower(w.table[j].provider) == Lower(cs[q].name)
    ensures PlaceAll(w, cs, true).None?
  {
    var s := {p, q};
    assert Lower(cs[p].name) != Lower(cs[q].name) by { if p < q {} else {} }
    assert p in s && q in s;
    GivesAndTakes(w.table, cs, s, p, q, i, j);
    GivesAndTakes(w.table, cs, s, q, p, j, i);
    ExchangeCollides(w.table, cs, s);
    RaisesExactlyWhen(w, cs);
  }

  // ---------------------------------------------------------------- identities of names

  /** The fixed id a name is projected with, whoever carries it. */
  function BuiltinId(name: string): Option<int> {
    if name == GETCOMICS then Some(200)
    else if name == EXTERNAL then Some(201)
    else if Lower(name) == "experimental" then Some(101)
    else if name == PROWLARR then Some(202)
    else None
  }

  /** What a name projected with a fixed id is. */
  lemma BuiltinIdentity(name: string, ns: seq<Provider>, ts: seq<Provider>)
    requires BuiltinId(name).Some?
    ensures Identify(name, ns, ts).Some?
    ensures Identify(name, ns, ts).value.id == BuiltinId(name).value
    ensures BuiltinId(name).value != 0
  {
  }

  lemma SameBuiltinSameFold(a: string, b: string)
    requires BuiltinId(a).Some? && BuiltinId(a) == BuiltinId(b)
    ensures Lower(a) == Lower(b)
  {
  }

  /** Any other name is projected as the configured provider it folds to. */
  lemma ConfiguredIdentity(name: string, ns: seq<Provider>, ts: seq<Provider>) returns (i: nat)
    requires BuiltinId(name).None? && Identify(name, ns, ts).Some?
    ensures i < |ns + ts| && Lower(NameOf((ns + ts)[i].fields)) == Lower(name)
    ensures (ns + ts)[i].id == Identify(name, ns, ts).value.id
  {
    if FindEntry(name, "newznab", ns).Some? {
      i := FoundAt(name, "newznab", ns);
    } else {
      var j := FoundAt(name, "torznab", ts);
      i := |ns| + j;
    }
  }

  lemma {:induction false} FoundAt(name: string, kind: string, entries: seq<Provider>) returns (i: nat)
    requires FindEntry(name, kind, entries).Some?
    ensures i < |entries| && Lower(NameOf(entries[i].fields)) == Lower(name)
    ensures entries[i].id == FindEntry(name, kind, entries).value.id
  {
    if Lower(NameOf(entries[0].fields)) == Lower(name) {
      i := 0;
    } else {
      var j := FoundAt(name, kind, entries[1..]);
      i := j + 1;
    }
  }

  /** Each projected identity is that of an ordered name. */
  lemma {:induction false} IdentitiesCome(order: seq<string>, ns: seq<Provider>, ts: seq<Provider>, k: nat)
    returns (i: nat)
    requires Identities(order, ns, ts).Some? && k < |Identities(order, ns, ts).value|
    ensures i < |order| && Identify(order[i], ns, ts) == Some(Identities(order, ns, ts).value[k])
  {
    var n := |order| - 1;
    var front := Identities(order[..n], ns, ts).value;
    if k < |front| {
      i := IdentitiesCome(order[..n], ns, ts, k);
    } else {
      i := n;
    }
  }

  /** Each ordered name that can be identified is projected. */
  lemma {:induction false} IdentityListed(order: seq<string>, ns: seq<Provider>, ts: seq<Provider>, k: nat)
    requires Identities(order, ns, ts).Some? && k < |order| && Identify(order[k], ns, ts).Some?
    ensures Identify(order[k], ns, ts).value in Identities(order, ns, ts).value
  {
    if k < |order| - 1 {
      IdentityListed(order[..|order| - 1], ns, ts, k);
    }
  }

  // ---------------------------------------------------------------- which id and type a provider's row has

  predicate IsBuiltinName(name: string) {
    name == "DDL(GetComics)" || name == "DDL(External)" || name == "Prowlarr" || Lower(name) == "experimental"
  }

  /** Entry i is the first one with the given name, ignoring case. */
  predicate FirstNamed(entries: seq<Provider>, name: string, i: nat) {
    && i < |entries| && Lower(NameOf(entries[i].fields)) == Lower(name)
    && forall j :: 0 <= j < i ==> Lower(NameOf(entries[j].fields)) != Lower(name)
  }

  predicate NoneNamed(entries: seq<Provider>, name: string) {
    forall j :: 0 <= j < |entries| ==> Lower(NameOf(entries[j].fields)) != Lower(name)
  }

  lemma {:induction false} FindsFirst(name: string, kind: string, entries: seq<Provider>, i: nat)
    requires FirstNamed(entries, name, i)
    ensures FindEntry(name, kind, entries) == Some(Identity(NameOf(entries[i].fields), kind, entries[i].id))
  {
    if i > 0 {
      assert Lower(NameOf(entries[0].fields)) != Lower(name);
      FindsFirst(name, kind, entries[1..], i - 1);
    }
  }

  lemma {:induction false} FindsNone(name: string, kind: string, entries: seq<Provider>)
    requires NoneNamed(entries, name)
    ensures FindEntry(name, kind, entries).None?
  {
    if entries != [] {
      FindsNone(name, kind, entries[1..]);
    }
  }

  /** The table has a row with this id, type and name, the name up to case. */
  predicate RowIs(t: seq<Row>, id: int, kind: string, name: string) {
    exists i :: 0 <= i < |t| && t[i].id == Some(id) && t[i].kind == kind && Lower(t[i].provider) == Lower(name)
  }

  lemma RowOfOrdered(rows: seq<Row>, order: seq<string>, ns: seq<Provider>, ts: seq<Provider>, unique: bool, k: nat,
                     c: Identity)
    requires CleanStart(rows, ns, ts, unique) && Reconcile(rows, order, ns, ts, unique).Some?
    requires Injective(Identities(order, ns, ts).value)
    requires k < |order| && Identify(order[k], ns, ts) == Some(c)
    ensures RowIs(Reconcile(rows, order, ns, ts, unique).value, c.id, c.kind, order[k])
  {
    var t := Reconcile(rows, order, ns, ts, unique).value;
    CommittedProjection(rows, order, ns, ts, unique);
    IdentityListed(order, ns, ts, k);
    IdentifyFolds(order[k], ns, ts);
    assert HasRow(t, c);
    var i :| 0 <= i < |t| && IsRowOf(t[i], c);
    assert t[i].id == Some(c.id) && t[i].kind == c.kind && Lower(t[i].provider) == Lower(order[k]);
  }

  /** An ordered provider of the Newznab list ends with a row of its id and type "newznab". */
  lemma NewznabRow(rows: seq<Row>, order: seq<string>, ns: seq<Provider>, ts: seq<Provider>, unique: bool, k: nat,
                   i: nat)
    requires CleanStart(rows, ns, ts, unique) && Reconcile(rows, order, ns, ts, unique).Some?
    requires Injective(Identities(order, ns, ts).value)
    requires k < |order| && !IsBuiltinName(order[k]) && FirstNamed(ns, order[k], i)
    ensures RowIs(Reconcile(rows, order, ns, ts, unique).value, ns[i].id, "newznab", order[k])
  {
    FindsFirst(order[k], "newznab", ns, i);
    RowOfOrdered(rows, order, ns, ts, unique, k, Identity(NameOf(ns[i].fields), "newznab", ns[i].id));
  }

  /** One of the Torznab list, if no Newznab provider has its name, with one of type "torznab". */
  lemma TorznabRow(rows: seq<Row>, order: seq<string>, ns: seq<Provider>, ts: seq<Provider>, unique: bool, k: nat,
                   i: nat)
    requires CleanStart(rows, ns, ts, unique) && Reconcile(rows, order, ns, ts, unique).Some?
    requires Injective(Identities(order, ns, ts).value)
    requires k < |order| && !IsBuiltinName(order[k]) && NoneNamed(ns, order[k]) && FirstNamed(ts, order[k], i)
    ensures RowIs(Reconcile(rows, order, ns, ts, unique).value, ts[i].id, "torznab", order[k])
  {
    FindsNone(order[k], "newznab", ns);
    FindsFirst(order[k], "torznab", ts, i);
    RowOfOrdered(rows, order, ns, ts, unique, k, Identity(NameOf(ts[i].fields), "torznab", ts[i].id));
  }

  /** A name that no list has and that is not built in raises, unless it is one of the two retired ones. */
  lemma UnknownRaises(rows: seq<Row>, order: seq<string>, ns: seq<Provider>, ts: seq<Provider>, unique: bool, k: nat)
    requires k < |order| && !IsBuiltinName(order[k]) && NoneNamed(ns, order[k]) && NoneNamed(ts, order[k])
    requires Lower(order[k]) != "32p" && Lower(order[k]) != "public torrents"
    ensures Reconcile(rows, order, ns, ts, unique).None?
  {
    FindsNone(order[k], "newznab", ns);
    FindsNone(order[k], "torznab", ts);
    UnknownStops(order, ns, ts, k);
  }

  lemma {:induction false} UnknownStops(order: seq<string>, ns: seq<Provider>, ts: seq<Provider>, k: nat)
    requires k < |order| && Identify(order[k], ns, ts).None? && !NotProjected(order[k])
    ensures Identities(order, ns, ts).None?
  {
    if k < |order| - 1 {
      UnknownStops(order[..|order| - 1], ns, ts, k);
    }
  }

  /** A retired provider that an order still names changes nothing: it is as if the order left it out. */
  lemma RetiredIsSkipped(rows: seq<Row>, order: seq<string>, ns: seq<Provider>, ts: seq<Provider>, unique: bool, k: nat)
    requires k < |order| && NoneNamed(ns, order[k]) && NoneNamed(ts, order[k])
    requires Lower(order[k]) == "32p" || Lower(order[k]) == "public torrents"
    ensures Reconcile(rows, order, ns, ts, unique) == Reconcile(rows, order[..k] + order[k + 1..], ns, ts, unique)
  {
    FindsNone(order[k], "newznab", ns);
    FindsNone(order[k], "torznab", ts);
    NotBuiltin(order[k]);
    WithoutSkipped(order, ns, ts, k);
  }

  lemma NotBuiltin(name: string)
    requires Lower(name) == "32p" || Lower(name) == "public torrents"
    ensures !IsBuiltinName(name)
  {
    assert |"32p"| == 3 && |"public torrents"| == 15;
    assert |"DDL(GetComics)"| == 14 && |"DDL(External)"| == 13 && |"Prowlarr"| == 8 && |"experimental"| == 12;
  }

  lemma {:induction false} WithoutSkipped(order: seq<string>, ns: seq<Provider>, ts: seq<Provider>, k: nat)
    requires k < |order| && Identify(order[k], ns, ts).None? && NotProjected(order[k])
    ensures Identities(order, ns, ts) == Identities(order[..k] + order[k + 1..], ns, ts)
  {
    var n := |order| - 1;
    var shorter := order[..k] + order[k + 1..];
    if k < n {
      WithoutSkipped(order[..n], ns, ts, k);
      assert shorter[..|shorter| - 1] == order[..n][..k] + order[..n][k + 1..];
    } else {
      assert shorter == order[..n];
    }
  }

  /** The id and the type of each built-in provider. */
  lemma BuiltinRow(rows: seq<Row>, order: seq<string>, ns: seq<Provider>, ts: seq<Provider>, unique: bool, k: nat)
    requires CleanStart(rows, ns, ts, unique) && Reconcile(rows, order, ns, ts, unique).Some?
    requires Injective(Identities(order, ns, ts).value) && k < |order|
    ensures var t := Reconcile(rows, order, ns, ts, unique).value;
            && (order[k] == "DDL(GetComics)" ==> RowIs(t, 200, "DDL", order[k]))
            && (order[k] == "DDL(External)" ==> RowIs(t, 201, "DDL(External)", order[k]))
            && (Lower(order[k]) == "experimental" ==> RowIs(t, 101, "experimental", "experimental"))
            && (order[k] == "Prowlarr" ==> RowIs(t, 202, "torznab", order[k]))
  {
    if IsBuiltinName(order[k]) {
      var c := BuiltinPair(order[k], ns, ts);
      RowOfOrdered(rows, order, ns, ts, unique, k, c);
      var t := Reconcile(rows, order, ns, ts, unique).value;
      if Lower(order[k]) == "experimental" {
        assert Lower("experimental") == "experimental";
      }
    }
  }

  lemma BuiltinPair(name: string, ns: seq<Provider>, ts: seq<Provider>) returns (c: Identity)
    requires IsBuiltinName(name)
    ensures Identify(name, ns, ts) == Some(c)
    ensures name == "DDL(GetComics)" ==> c.id == 200 && c.kind == "DDL"
    ensures name == "DDL(External)" ==> c.id == 201 && c.kind == "DDL(External)"
    ensures Lower(name) == "experimental" ==> c.id == 101 && c.kind == "experimental"
    ensures name == "Prowlarr" ==> c.id == 202 && c.kind == "torznab"
  {
    assert |Lower("DDL(GetComics)")| == 14 && |Lower("DDL(External)")| == 13 && |Lower("Prowlarr")| == 8;
    c := Identify(name, ns, ts).value;
  }

  // ---------------------------------------------------------------- the table itself

  class Projection {
    var rows: seq<Row>

    constructor (rows: seq<Row>)
      ensures this.rows == rows
    {
      this.rows := rows;
    }

    /** The first pass; None where a statement raises. */
    method LoadRows(newznabs: seq<Provider>, torznabs: seq<Provider>, unique: bool) returns (loaded: Option<Work>)
      ensures loaded == Load(Work(rows, map[], map[]), rows, newznabs, torznabs, unique)
    {
      var w := Work(rows, map[], map[]);
      for i := 0 to |rows|
        invariant Load(Work(rows, map[], map[]), rows[..i], newznabs, torznabs, unique) == Some(w)
      {
        assert rows[..i + 1][..i] == rows[..i];
        var next := LoadRow(w, rows[i], newznabs, torznabs, unique);
        if next.None? {
          LoadStopped(rows, i, newznabs, torznabs, unique);
          return None;
        }
        w := next.value;
      }
      assert rows[..|rows|] == rows;
      return Some(w);
    }

    /** The second pass; None where a provider is unknown or a statement raises. */
    method PlaceOrder(loaded: Work, order: seq<string>, newznabs: seq<Provider>, torznabs: seq<Provider>, unique: bool)
      returns (placed: Option<Work>)
      ensures var cs := Identities(order, newznabs, torznabs);
              placed == if cs.None? then None else PlaceAll(loaded, cs.value, unique)
    {
      var w := loaded;
      ghost var cs: seq<Identity> := [];
      for k := 0 to |order|
        invariant Identities(order[..k], newznabs, torznabs) == Some(cs)
        invariant PlaceAll(loaded, cs, unique) == Some(w)
      {
        IdentitiesStep(order, k, newznabs, torznabs);
        var c := Identify(order[k], newznabs, torznabs);
        if c.None? {
          if NotProjected(order[k]) {
            continue;
          }
          IdentitiesStopped(order, k, newznabs, torznabs);
          return None;
        }
        PlaceAllStep(loaded, cs, c.value, unique);
        var next := Place(w, c.value, unique);
        cs := cs + [c.value];
        if next.None? {
          PlaceStopped(loaded, order, k + 1, newznabs, torznabs, unique);
          return None;
        }
        w := next.value;
      }
      assert order[..|order|] == order;
      return Some(w);
    }

    /** write_out_provider_searches; false is an exception, after which the rows are as before. */
    method WriteOut(order: seq<string>, newznabs: seq<Provider>, torznabs: seq<Provider>, unique: bool)
      returns (ok: bool)
      modifies this
      ensures ok == Reconcile(old(rows), order, newznabs, torznabs, unique).Some?
      ensures rows == Reconcile(old(rows), order, newznabs, torznabs, unique).GetOr(old(rows))
    {
      var loaded := LoadRows(newznabs, torznabs, unique);
      if loaded.None? {
        return false;
      }
      var placed := PlaceOrder(loaded.value, order, newznabs, torznabs, unique);
      if placed.None? {
        return false;
      }
      rows := placed.value.table;
      return true;
    }
  }

  lemma {:induction false} LoadStopped(rows: seq<Row>, i: nat, newznabs: seq<Provider>, torznabs: seq<Provider>,
                                       unique: bool)
    requires i < |rows|
    requires Load(Work(rows, map[], map[]), rows[..i + 1], newznabs, torznabs, unique).None?
    ensures Load(Work(rows, map[], map[]), rows, newznabs, torznabs, unique).None?
    decreases |rows| - i
  {
    if i + 1 == |rows| {
      assert rows[..i + 1] == rows;
    } else {
      assert rows[..i + 2][..i + 1] == rows[..i + 1];
      LoadStopped(rows, i + 1, newznabs, torznabs, unique);
    }
  }

  lemma IdentitiesStep(order: seq<string>, k: nat, newznabs: seq<Provider>, torznabs: seq<Provider>)
    requires k < |order| && Identities(order[..k], newznabs, torznabs).Some?
    ensures var c := Identify(order[k], newznabs, torznabs);
            Identities(order[..k + 1], newznabs, torznabs)
            == if c.Some? then Some(Identities(order[..k], newznabs, torznabs).value + [c.value])
               else if NotProjected(order[k]) then Identities(order[..k], newznabs, torznabs)
               else None
  {
    assert order[..k + 1][..k] == order[..k];
  }

  lemma PlaceAllStep(w: Work, cs: seq<Identity>, c: Identity, unique: bool)
    requires PlaceAll(w, cs, unique).Some?
    ensures PlaceAll(w, cs + [c], unique) == Place(PlaceAll(w, cs, unique).value, c, unique)
  {
    assert (cs + [c])[..|cs|] == cs;
  }

  lemma {:induction false} IdentitiesStopped(order: seq<string>, k: nat, newznabs: seq<Provider>,
                                             torznabs: seq<Provider>)
    requires k < |order| && Identities(order[..k + 1], newznabs, torznabs).None?
    ensures Identities(order, newznabs, torznabs).None?
    decreases |order| - k
  {
    if k + 1 == |order| {
      assert order[..k + 1] == order;
    } else {
      assert order[..k + 2][..k + 1] == order[..k + 1];
      IdentitiesStopped(order, k + 1, newznabs, torznabs);
    }
  }

  lemma {:induction false} PlaceStopped(w: Work, order: seq<string>, k: nat, newznabs: seq<Provider>,
                                        torznabs: seq<Provider>, unique: bool)
    requires k <= |order| && Identities(order[..k], newznabs, torznabs).Some?
    requires PlaceAll(w, Identities(order[..k], newznabs, torznabs).value, unique).None?
    ensures var cs := Identities(order, newznabs, torznabs); cs.None? || PlaceAll(w, cs.value, unique).None?
    decreases |order| - k
  {
    if k == |order| {
      assert order[..k] == order;
    } else {
      assert order[..k + 1][..k] == order[..k];
      if Identities(order[..k + 1], newznabs, torznabs).None? {
        IdentitiesStopped(order, k, newznabs, torznabs);
      } else {
        var cs := Identities(order[..k], newznabs, torznabs).value;
        var next := Identities(order[..k + 1], newznabs, torznabs).value;
        if |next| > |cs| {
          assert next[..|cs|] == cs;
        }
        PlaceStopped(w, order, k + 1, newznabs, torznabs, unique);
      }
    }
  }
}
