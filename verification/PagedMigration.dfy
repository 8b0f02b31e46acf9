/**
 The paged database migration: read a table page by page, clean every row, drop rows whose
 upsert key was already seen, insert what is left of each page, and verify by counting.
 */
module PagedMigration {
  import opened Options

  /** A cell.  Numbers compare by value, as int and float do in Python. */
  datatype Value = Null | Text(text: string) | Number(number: real) | Blob(bytes: seq<int>)

  type Row = map<string, Value>

  /** Number parsing (int or float of a string); None where Python raises ValueError. */
  type Parse = string -> Option<real>

  /** What the migration knows of one table. */
  datatype Schema = Schema(
    targetColumns: set<string>,
    textColumns: set<string>,
    numberColumns: set<string>,
    upsertKeys: Option<seq<string>>)

  // ---------------------------------------------------------------- cleaning

  function CleanValue(column: string, v: Value, schema: Schema, parse: Parse): Value {
    if v == Null then Null
    else if column in schema.textColumns then
      if v == Text("None") then Null else v
    else if column in schema.numberColumns then
      match v
      case Text(t) =>
        if t == "" || t == "None" then Null
        else
          var n := parse(t);
          if n.Some? then Number(n.value) else Null
      case _ => v
    else v
  }

  function CleanRow(row: Row, schema: Schema, parse: Parse): Row {
    map c | c in row && c in schema.targetColumns :: CleanValue(c, row[c], schema, parse)
  }

  function CleanAll(rows: seq<Row>, schema: Schema, parse: Parse): (cleaned: seq<Row>)
    ensures |cleaned| == |rows|
    ensures forall i :: 0 <= i < |rows| ==> cleaned[i] == CleanRow(rows[i], schema, parse)
  {
    seq(|rows|, i requires 0 <= i < |rows| => CleanRow(rows[i], schema, parse))
  }

  /** What cleaning makes of the cell of one column. */
  predicate CellIs(column: string, before: Value, after: Value, schema: Schema, parse: Parse) {
    if before == Null then after == Null
    else if column in schema.textColumns then
      (after == Null <==> before == Text("None")) && (after != Null ==> after == before)
    else if column in schema.numberColumns && before.Text? then
      var t := before.text;
      if t != "" && t != "None" && parse(t).Some? then after == Number(parse(t).value) else after == Null
    else after == before
  }

  /** A cleaned row has the source columns that the target knows, and cleaned cells. */
  predicate IsCleaned(row: Row, cleaned: Row, schema: Schema, parse: Parse) {
    && cleaned.Keys == row.Keys * schema.targetColumns
    && (forall c :: c in cleaned ==> CellIs(c, row[c], cleaned[c], schema, parse))
  }

  lemma CleanRowIs(row: Row, schema: Schema, parse: Parse)
    ensures IsCleaned(row, CleanRow(row, schema, parse), schema, parse)
  {
  }

  // ---------------------------------------------------------------- the specification

  function KeyOf(row: Row, keys: seq<string>): (key: seq<Value>)
    ensures |key| == |keys|
  {
    seq(|keys|, i requires 0 <= i < |keys| => if keys[i] in row then row[keys[i]] else Null)
  }

  predicate HasNull(key: seq<Value>) {
    exists i :: 0 <= i < |key| && key[i] == Null
  }

  /** Row i repeats the key of an earlier row. */
  predicate Repeats(rows: seq<Row>, keys: Option<seq<string>>, i: nat)
    requires i < |rows|
  {
    && keys.Some?
    && !HasNull(KeyOf(rows[i], keys.value))
    && exists j :: 0 <= j < i && KeyOf(rows[j], keys.value) == KeyOf(rows[i], keys.value)
  }

  /** The rows of the first n that do not repeat an earlier key, in order. */
  function FirstOccurrences(rows: seq<Row>, keys: Option<seq<string>>, n: nat): seq<Row>
    requires n <= |rows|
  {
    if n == 0 then []
    else FirstOccurrences(rows, keys, n - 1) + (if Repeats(rows, keys, n - 1) then [] else [rows[n - 1]])
  }

  lemma {:induction false} FirstOccurrencesBound(rows: seq<Row>, keys: Option<seq<string>>, n: nat)
    requires n <= |rows|
    ensures |FirstOccurrences(rows, keys, n)| <= n
    ensures keys.None? ==> FirstOccurrences(rows, keys, n) == rows[..n]
  {
    if n > 0 {
      FirstOccurrencesBound(rows, keys, n - 1);
    }
  }

  /** Two rows hold the same values in all key columns, none of them NULL or absent. */
  predicate SameKey(a: Row, b: Row, keys: seq<string>) {
    forall c :: c in keys ==> c in a && c in b && a[c] == b[c] && a[c] != Null
  }

  lemma KeysAgree(a: Row, b: Row, keys: seq<string>)
    ensures KeyOf(a, keys) == KeyOf(b, keys) && !HasNull(KeyOf(b, keys)) <==> SameKey(a, b, keys)
  {
    if KeyOf(a, keys) == KeyOf(b, keys) && !HasNull(KeyOf(b, keys)) {
      forall c | c in keys ensures c in a && c in b && a[c] == b[c] && a[c] != Null {
        var i :| 0 <= i < |keys| && keys[i] == c;
        assert KeyOf(a, keys)[i] == KeyOf(b, keys)[i] && KeyOf(b, keys)[i] != Null;
      }
    }
    if SameKey(a, b, keys) {
      forall i | 0 <= i < |keys| ensures KeyOf(a, keys)[i] == KeyOf(b, keys)[i] && KeyOf(b, keys)[i] != Null {
        assert keys[i] in keys;
      }
    }
  }

  /** A row is dropped exactly if the table has an upsert key and an earlier row the same one. */
  lemma RepeatsExactlyWhen(rows: seq<Row>, keys: Option<seq<string>>, i: nat)
    requires i < |rows|
    ensures Repeats(rows, keys, i) <==>
              keys.Some? && exists j :: 0 <= j < i && SameKey(rows[j], rows[i], keys.value)
  {
    if keys.Some? {
      forall j | 0 <= j < i
        ensures SameKey(rows[j], rows[i], keys.value) <==>
                  !HasNull(KeyOf(rows[i], keys.value)) && KeyOf(rows[j], keys.value) == KeyOf(rows[i], keys.value)
      {
        KeysAgree(rows[j], rows[i], keys.value);
      }
    }
  }

  /** Rows i of the first n, in the order of the source, and none left out that repeats no key. */
  lemma {:induction false} FirstOccurrencesAre(rows: seq<Row>, keys: Option<seq<string>>, n: nat) returns (at: seq<nat>)
    requires n <= |rows|
    ensures |at| == |FirstOccurrences(rows, keys, n)| && forall k, l :: 0 <= k < l < |at| ==> at[k] < at[l]
    ensures forall k :: 0 <= k < |at| ==> at[k] < n && FirstOccurrences(rows, keys, n)[k] == rows[at[k]]
    ensures forall i :: 0 <= i < n ==> (i in at <==> !Repeats(rows, keys, i))
  {
    at := [];
    if n > 0 {
      at := FirstOccurrencesAre(rows, keys, n - 1);
      forall i | i in at ensures i < n - 1 {
        var k :| 0 <= k < |at| && at[k] == i;
      }
      if !Repeats(rows, keys, n - 1) {
        at := at + [n - 1];
      }
    }
  }

  /** r stands for row: it is that row, or it carries its key. */
  predicate StandsFor(r: Row, row: Row, keys: Option<seq<string>>) {
    r == row || (keys.Some? && KeyOf(r, keys.value) == KeyOf(row, keys.value))
  }

  /** Nothing is lost: every row, or an earlier row with its key, is among the first occurrences. */
  lemma {:induction false} NothingLost(rows: seq<Row>, keys: Option<seq<string>>, n: nat, i: nat) returns (r: Row)
    requires i < n <= |rows|
    ensures r in FirstOccurrences(rows, keys, n) && StandsFor(r, rows[i], keys)
    decreases i, n
  {
    if i < n - 1 {
      r := NothingLost(rows, keys, n - 1, i);
    } else if Repeats(rows, keys, i) {
      var j :| 0 <= j < i && KeyOf(rows[j], keys.value) == KeyOf(rows[i], keys.value);
      r := NothingLost(rows, keys, n - 1, j);
    } else {
      r := rows[i];
    }
  }

  lemma {:induction false} KeptRowsComeFrom(rows: seq<Row>, keys: Option<seq<string>>, n: nat, r: Row)
    requires n <= |rows| && r in FirstOccurrences(rows, keys, n)
    ensures exists i :: 0 <= i < n && rows[i] == r && !Repeats(rows, keys, i)
  {
    if !(r in FirstOccurrences(rows, keys, n - 1)) {
      assert rows[n - 1] == r;
    } else {
      KeptRowsComeFrom(rows, keys, n - 1, r);
    }
  }

  predicate DistinctKeys(rows: seq<Row>, keys: seq<string>) {
    forall i, j :: 0 <= i < j < |rows| && !HasNull(KeyOf(rows[i], keys)) ==>
      KeyOf(rows[i], keys) != KeyOf(rows[j], keys)
  }

  /** No key without NULL is migrated twice. */
  lemma {:induction false} KeysMigratedOnce(rows: seq<Row>, keys: seq<string>, n: nat)
    requires n <= |rows|
    ensures DistinctKeys(FirstOccurrences(rows, Some(keys), n), keys)
  {
    if n > 0 {
      KeysMigratedOnce(rows, keys, n - 1);
      var before := FirstOccurrences(rows, Some(keys), n - 1);
      var row := rows[n - 1];
      if !Repeats(rows, Some(keys), n - 1) {
        var kept := before + [row];
        assert FirstOccurrences(rows, Some(keys), n) == kept;
        forall i, j | 0 <= i < j < |kept| && !HasNull(KeyOf(kept[i], keys))
          ensures KeyOf(kept[i], keys) != KeyOf(kept[j], keys)
        {
          assert kept[i] == before[i] && (j < |before| ==> kept[j] == before[j]);
          if j == |before| {
            KeptRowsComeFrom(rows, Some(keys), n - 1, before[i]);
            var k :| 0 <= k < n - 1 && rows[k] == before[i];
            assert KeyOf(kept[i], keys) == KeyOf(rows[k], keys);
          }
        }
      } else {
        assert FirstOccurrences(rows, Some(keys), n) == before;
      }
    }
  }

  // ---------------------------------------------------------------- one table

  function Min(a: nat, b: nat): nat {
    if a < b then a else b
  }

  /** The set seen_keys after the first n cleaned rows. */
  ghost predicate SeenExactly(seen: set<seq<Value>>, rows: seq<Row>, keys: Option<seq<string>>, n: nat)
    requires n <= |rows|
  {
    keys.Some? ==>
      forall key :: key in seen <==> !HasNull(key) && exists j :: 0 <= j < n && KeyOf(rows[j], keys.value) == key
  }

  lemma SeenRow(seen: set<seq<Value>>, rows: seq<Row>, keys: seq<string>, i: nat)
    requires i < |rows| && SeenExactly(seen, rows, Some(keys), i)
    ensures var key := KeyOf(rows[i], keys);
            && (Repeats(rows, Some(keys), i) <==> !HasNull(key) && key in seen)
            && SeenExactly(if HasNull(key) then seen else seen + {key}, rows, Some(keys), i + 1)
  {
    var key := KeyOf(rows[i], keys);
    var after := if HasNull(key) then seen else seen + {key};
    forall k ensures k in after <==> !HasNull(k) && exists j :: 0 <= j < i + 1 && KeyOf(rows[j], keys) == k {
      if k in seen {
        var j :| 0 <= j < i && KeyOf(rows[j], keys) == k;
        assert KeyOf(rows[j], keys) == k && j < i + 1;
      }
    }
  }

  /**
   One page: the cleaned rows that do not repeat a key, the keys seen so far, and how many rows
   were dropped.
   */
  method CleanPage(source: seq<Row>, schema: Schema, parse: Parse, start: nat, end: nat, seen: set<seq<Value>>,
      ghost cleaned: seq<Row>)
    returns (batch: seq<Row>, seen': set<seq<Value>>, dropped: nat)
    requires start <= end <= |source| && cleaned == CleanAll(source, schema, parse)
    requires SeenExactly(seen, cleaned, schema.upsertKeys, start)
    ensures FirstOccurrences(cleaned, schema.upsertKeys, end)
         == FirstOccurrences(cleaned, schema.upsertKeys, start) + batch
    ensures SeenExactly(seen', cleaned, schema.upsertKeys, end)
    ensures |batch| + dropped == end - start
  {
    var keys := schema.upsertKeys;
    batch, seen', dropped := [], seen, 0;
    ghost var before := FirstOccurrences(cleaned, keys, start);
    for i := start to end
      invariant FirstOccurrences(cleaned, keys, i) == before + batch
      invariant SeenExactly(seen', cleaned, keys, i)
      invariant |batch| + dropped == i - start
    {
      var row := CleanRow(source[i], schema, parse);
      assert row == cleaned[i];
      assert before + batch + [row] == before + (batch + [row]);
      if keys.None? {
        batch := batch + [row];
      } else {
        SeenRow(seen', cleaned, keys.value, i);
        var key := KeyOf(row, keys.value);
        if HasNull(key) {
          batch := batch + [row];
        } else if key in seen' {
          assert seen' + {key} == seen';
          dropped := dropped + 1;
        } else {
          seen' := seen' + {key};
          batch := batch + [row];
        }
      }
    }
  }

  /** The fate of a table: its target rows, how many rows were dropped, whether an insert raised. */
  datatype TableResult = TableResult(target: seq<Row>, deduped: nat, failed: bool)

  /** A row of the target that was inserted is a cleaned row of the source. */
  predicate ComesFrom(source: seq<Row>, r: Row, schema: Schema, parse: Parse) {
    exists i :: 0 <= i < |source| && IsCleaned(source[i], r, schema, parse)
  }

  lemma InsertedAreCleaned(source: seq<Row>, schema: Schema, parse: Parse, n: nat)
    requires n <= |source|
    ensures var f := FirstOccurrences(CleanAll(source, schema, parse), schema.upsertKeys, n);
            forall k :: 0 <= k < |f| ==> ComesFrom(source, f[k], schema, parse)
  {
    var cleaned := CleanAll(source, schema, parse);
    var f := FirstOccurrences(cleaned, schema.upsertKeys, n);
    var at := FirstOccurrencesAre(cleaned, schema.upsertKeys, n);
    forall k | 0 <= k < |f| ensures ComesFrom(source, f[k], schema, parse) {
      CleanRowIs(source[at[k]], schema, parse);
      assert IsCleaned(source[at[k]], f[k], schema, parse);
    }
  }

  /** Where page m begins. */
  function PageStart(size: nat, m: nat, total: nat): (at: nat)
    ensures at <= total
  {
    if m == 0 then 0 else Min(PageStart(size, m - 1, total) + size, total)
  }

  /** Page m has rows to insert. */
  predicate Inserts(rows: seq<Row>, keys: Option<seq<string>>, size: nat, m: nat) {
    var start, end := PageStart(size, m, |rows|), PageStart(size, m + 1, |rows|);
    FirstOccurrences(rows, keys, start) != FirstOccurrences(rows, keys, end)
  }

  /** Page m is there, has rows to insert, and the insert raises. */
  predicate PageFails(rows: seq<Row>, keys: Option<seq<string>>, size: nat, m: nat, fails: nat -> bool) {
    PageStart(size, m, |rows|) < |rows| && Inserts(rows, keys, size, m) && fails(m)
  }

  /** The first insert that raises is that of page m, and the target holds what the pages before it brought. */
  predicate StopsAt(rows: seq<Row>, keys: Option<seq<string>>, size: nat, fails: nat -> bool, m: nat, target: seq<Row>,
                    result: seq<Row>)
  {
    && PageFails(rows, keys, size, m, fails) && NoneFails(rows, keys, size, m, fails)
    && result == target + FirstOccurrences(rows, keys, PageStart(size, m, |rows|))
  }

  /** Some insert raises, and the target holds what came before the first that does. */
  ghost predicate Stopped(rows: seq<Row>, keys: Option<seq<string>>, size: nat, fails: nat -> bool, target: seq<Row>,
                          result: seq<Row>)
  {
    exists m: nat :: StopsAt(rows, keys, size, fails, m, target, result)
  }

  /** No insert raises. */
  ghost predicate Completes(rows: seq<Row>, keys: Option<seq<string>>, size: nat, fails: nat -> bool) {
    forall m: nat :: !PageFails(rows, keys, size, m, fails)
  }

  predicate NoneFails(rows: seq<Row>, keys: Option<seq<string>>, size: nat, n: nat, fails: nat -> bool) {
    forall k :: 0 <= k < n ==> !PageFails(rows, keys, size, k, fails)
  }

  lemma NextPage(rows: seq<Row>, keys: Option<seq<string>>, size: nat, m: nat, batch: seq<Row>, fails: nat -> bool)
    requires PageStart(size, m, |rows|) < |rows| && NoneFails(rows, keys, size, m, fails)
    requires var start, end := PageStart(size, m, |rows|), PageStart(size, m + 1, |rows|);
             FirstOccurrences(rows, keys, end) == FirstOccurrences(rows, keys, start) + batch
    ensures Inserts(rows, keys, size, m) <==> batch != []
    ensures batch == [] || !fails(m) ==> NoneFails(rows, keys, size, m + 1, fails)
  {
    var before := FirstOccurrences(rows, keys, PageStart(size, m, |rows|));
    assert batch == [] ==> before + batch == before;
  }

  lemma LastPage(rows: seq<Row>, keys: Option<seq<string>>, size: nat, n: nat, fails: nat -> bool)
    requires PageStart(size, n, |rows|) == |rows| && NoneFails(rows, keys, size, n, fails)
    ensures Completes(rows, keys, size, fails)
  {
    forall m: nat | PageStart(size, m, |rows|) < |rows| ensures m < n {
      if m >= n {
        MorePages(n, m, size, |rows|);
      }
    }
  }

  lemma {:induction false} MorePages(n: nat, m: nat, size: nat, total: nat)
    requires n <= m
    ensures PageStart(size, n, total) <= PageStart(size, m, total)
  {
    if n < m {
      MorePages(n, m - 1, size, total);
    }
  }

  /** The page loop: either every insert succeeds and all rows are kept or dropped, or the first that raises ends it. */
  method CopyPages(source: seq<Row>, schema: Schema, parse: Parse, batchSize: int, target: seq<Row>,
                   insertFails: nat -> bool, ghost cleaned: seq<Row>)
    returns (r: TableResult)
    requires batchSize > 0 && cleaned == CleanAll(source, schema, parse)
    ensures if r.failed then Stopped(cleaned, schema.upsertKeys, batchSize, insertFails, target, r.target)
            else
              && r.target == target + FirstOccurrences(cleaned, schema.upsertKeys, |source|)
              && |r.target| - |target| + r.deduped == |source|
              && Completes(cleaned, schema.upsertKeys, batchSize, insertFails)
  {
    var rowCount := |source|;
    var offset := 0;
    var seen: set<seq<Value>> := {};
    var result := target;
    var deduped := 0;
    var page := 0;
    while offset < rowCount
      invariant 0 <= offset
      invariant result == target + FirstOccurrences(cleaned, schema.upsertKeys, Min(offset, rowCount))
      invariant |result| - |target| + deduped == Min(offset, rowCount)
      invariant SeenExactly(seen, cleaned, schema.upsertKeys, Min(offset, rowCount))
      invariant 0 <= page && Min(offset, rowCount) == PageStart(batchSize, page, rowCount)
      invariant NoneFails(cleaned, schema.upsertKeys, batchSize, page, insertFails)
      decreases rowCount - offset
    {
      var end := Min(offset + batchSize, rowCount);
      var batch, dropped;
      batch, seen, dropped := CleanPage(source, schema, parse, offset, end, seen, cleaned);
      assert target + (FirstOccurrences(cleaned, schema.upsertKeys, offset) + batch)
          == target + FirstOccurrences(cleaned, schema.upsertKeys, offset) + batch;
      NextPage(cleaned, schema.upsertKeys, batchSize, page, batch, insertFails);
      deduped := deduped + dropped;
      if batch != [] {
        if insertFails(page) {
          assert StopsAt(cleaned, schema.upsertKeys, batchSize, insertFails, page, target, result);
          return TableResult(result, deduped, true);
        }
        result := result + batch;
      }
      page := page + 1;
      offset := offset + batchSize;
    }
    LastPage(cleaned, schema.upsertKeys, batchSize, page, insertFails);
    return TableResult(result, deduped, false);
  }

  /** The rows of the target stay, and those behind them are cleaned rows of the source. */
  predicate Extends(target: seq<Row>, result: seq<Row>, source: seq<Row>, schema: Schema, parse: Parse) {
    && |result| >= |target| && result[..|target|] == target
    && forall k :: |target| <= k < |result| ==> ComesFrom(source, result[k], schema, parse)
  }

  lemma InsertedInto(source: seq<Row>, schema: Schema, parse: Parse, n: nat, target: seq<Row>, result: seq<Row>)
    requires n <= |source|
    requires result == target + FirstOccurrences(CleanAll(source, schema, parse), schema.upsertKeys, n)
    ensures Extends(target, result, source, schema, parse)
  {
    InsertedAreCleaned(source, schema, parse, n);
  }

  lemma StoppedRows(source: seq<Row>, schema: Schema, parse: Parse, size: nat, fails: nat -> bool, target: seq<Row>,
                    result: seq<Row>)
    requires Stopped(CleanAll(source, schema, parse), schema.upsertKeys, size, fails, target, result)
    ensures Extends(target, result, source, schema, parse)
    ensures exists n :: 0 <= n <= |source| && result == target + FirstOccurrences(CleanAll(source, schema, parse),
                                                                                  schema.upsertKeys, n)
    ensures exists n :: fails(n)
  {
    var cleaned := CleanAll(source, schema, parse);
    var m: nat :| StopsAt(cleaned, schema.upsertKeys, size, fails, m, target, result);
    InsertedInto(source, schema, parse, PageStart(size, m, |source|), target, result);
  }

  /**
   Migrates one table.  For every batch size of at least one the inserted rows are the first
   occurrences of the cleaned source, each cleaned cell by cell; the first insert that raises
   leaves exactly the pages before it.
   */
  method MigrateTable(source: seq<Row>, schema: Schema, parse: Parse, batchSize: int, target: seq<Row>,
                      insertFails: nat -> bool)
    returns (r: TableResult)
    requires batchSize > 0
    ensures var cleaned := CleanAll(source, schema, parse);
            if r.failed then
              exists n :: 0 <= n <= |source| && r.target == target + FirstOccurrences(cleaned, schema.upsertKeys, n)
            else
              && r.target == target + FirstOccurrences(cleaned, schema.upsertKeys, |source|)
              && |r.target| - |target| + r.deduped == |source|
    ensures (forall n :: !insertFails(n)) ==> !r.failed
    ensures var cleaned, keys := CleanAll(source, schema, parse), schema.upsertKeys;
            if r.failed then Stopped(cleaned, keys, batchSize, insertFails, target, r.target)
            else Completes(cleaned, keys, batchSize, insertFails)
    ensures Extends(target, r.target, source, schema, parse)
  {
    ghost var cleaned := CleanAll(source, schema, parse);
    r := CopyPages(source, schema, parse, batchSize, target, insertFails, cleaned);
    if r.failed {
      StoppedRows(source, schema, parse, batchSize, insertFails, target, r.target);
    } else {
      InsertedInto(source, schema, parse, |source|, target, r.target);
    }
  }

  // ---------------------------------------------------------------- all tables, and the verification

  /** A source table; a schema of None means the table is not in the metadata and is skipped. */
  datatype Table = Table(name: string, source: seq<Row>, schema: Option<Schema>, target: seq<Row>)

  /** The verdict the verification prints for a table. */
  predicate Passes(sourceCount: nat, targetCount: nat, deduped: nat, failed: bool) {
    !failed && (sourceCount == targetCount || (deduped > 0 && sourceCount == targetCount + deduped))
  }

  /** The number of rows of a table that repeat a key, at the end of a complete migration. */
  function Repeated(t: Table, parse: Parse): int
    requires t.schema.Some?
  {
    |t.source| - |FirstOccurrences(CleanAll(t.source, t.schema.value, parse), t.schema.value.upsertKeys, |t.source|)|
  }

  /**
   What the counts can tell: after a complete migration a table passes exactly when its target
   was empty before, or held exactly as many rows as were dropped.
   */
  lemma VerdictOfCompleteTable(t: Table, parse: Parse, r: TableResult)
    requires t.schema.Some? && !r.failed
    requires r.target == t.target
             + FirstOccurrences(CleanAll(t.source, t.schema.value, parse), t.schema.value.upsertKeys, |t.source|)
    requires |r.target| - |t.target| + r.deduped == |t.source|
    ensures Passes(|t.source|, |r.target|, r.deduped, r.failed) <==> t.target == [] || |t.target| == Repeated(t, parse)
  {
    FirstOccurrencesBound(CleanAll(t.source, t.schema.value, parse), t.schema.value.upsertKeys, |t.source|);
  }

  /** Two source rows with one key, migrated into a target that holds a stale row: the counts agree. */
  lemma StaleRowPasses(name: string, stale: Row, schema: Schema, parse: Parse, row: Row)
    requires schema.upsertKeys == Some(["ID"]) && CleanRow(row, schema, parse) == map["ID" := Text("1")]
    ensures var t := Table(name, [row, row], Some(schema), [stale]);
            var r := TableResult([stale, CleanRow(row, schema, parse)], 1, false);
            Migrated(t, parse, r) && Passes(|t.source|, |r.target|, r.deduped, r.failed)
  {
    var cleaned := CleanAll([row, row], schema, parse);
    var first := CleanRow(row, schema, parse);
    assert cleaned[0] == first && cleaned[1] == first;
    assert KeyOf(first, ["ID"])[0] == Text("1");
    assert !Repeats(cleaned, schema.upsertKeys, 0);
    assert Repeats(cleaned, schema.upsertKeys, 1) by { assert KeyOf(cleaned[0], ["ID"]) == KeyOf(cleaned[1], ["ID"]); }
    assert FirstOccurrences(cleaned, schema.upsertKeys, 0) == [];
    assert FirstOccurrences(cleaned, schema.upsertKeys, 1) == [first];
    assert FirstOccurrences(cleaned, schema.upsertKeys, 2) == [first];
  }

  /** The result of a table as the loop leaves it. */
  ghost predicate Migrated(t: Table, parse: Parse, r: TableResult) {
    match t.schema
    case None => r == TableResult(t.target, 0, false)
    case Some(schema) =>
      var cleaned := CleanAll(t.source, schema, parse);
      if r.failed then
        exists n :: 0 <= n <= |t.source| && r.target == t.target + FirstOccurrences(cleaned, schema.upsertKeys, n)
      else
        && r.target == t.target + FirstOccurrences(cleaned, schema.upsertKeys, |t.source|)
        && |r.target| - |t.target| + r.deduped == |t.source|
  }

  method MigrateListed(t: Table, parse: Parse, batchSize: int, insertFails: nat -> bool) returns (r: TableResult)
    requires batchSize > 0
    ensures Migrated(t, parse, r)
    ensures r.failed ==> exists n :: insertFails(n)
  {
    if t.schema.None? {
      return TableResult(t.target, 0, false);
    }
    r := MigrateTable(t.source, t.schema.value, parse, batchSize, t.target, insertFails);
  }

  /** What the verdict of the whole run means for one table. */
  predicate Sound(t: Table, parse: Parse, r: TableResult) {
    t.schema.Some? ==> !r.failed && (t.target == [] || |t.target| == Repeated(t, parse))
  }

  /**
   The migration.  It reports success exactly when no insert failed, the schema revision is the
   expected one, and every target was empty before (or held as many rows as were dropped, which
   the counts cannot tell apart).
   */
  method Migrate(tables: seq<Table>, parse: Parse, batchSize: int, fails: (nat, nat) -> bool, revisionOk: bool)
    returns (results: seq<TableResult>, ok: bool)
    requires batchSize > 0
    ensures |results| == |tables|
    ensures forall i :: 0 <= i < |tables| ==> Migrated(tables[i], parse, results[i])
    ensures ok <==> revisionOk && forall i :: 0 <= i < |tables| ==> Sound(tables[i], parse, results[i])
    ensures revisionOk && (forall i, n :: !fails(i, n)) ==>
              (forall i :: 0 <= i < |tables| ==> tables[i].target == []) ==> ok
  {
    results := [];
    for i := 0 to |tables|
      invariant |results| == i
      invariant forall j :: 0 <= j < i ==> Migrated(tables[j], parse, results[j])
      invariant forall j :: 0 <= j < i && results[j].failed ==> exists n :: fails(j, n)
    {
      var r := MigrateListed(tables[i], parse, batchSize, (n: nat) => fails(i, n));
      results := results + [r];
    }
    ok := true;
    for i := 0 to |tables|
      invariant ok <==> forall j :: 0 <= j < i ==> Sound(tables[j], parse, results[j])
    {
      var t, r := tables[i], results[i];
      if t.schema.Some? {
        if !r.failed {
          VerdictOfCompleteTable(t, parse, r);
        }
        ok := ok && Passes(|t.source|, |r.target|, r.deduped, r.failed);
      }
    }
    ok := ok && revisionOk;
  }
}
