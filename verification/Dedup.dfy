/**
 Deduplication before a UNIQUE constraint: the DELETE statements of _dedup_delete_sql, as
 SQLite and PostgreSQL run them, and the count-and-delete loop that MySQL gets.

 A key is valid when none of its columns is NULL or empty; rows with other keys are never
 touched.  Row identities (rowid, ctid) are distinct and totally ordered.
 */
module Dedup {
  import opened Options

  type Key = seq<Option<string>>

  datatype Row = Row(rowid: int, key: Key, location: Option<string>, status: Option<string>)

  /** Which of the quality columns the ORDER BY uses. */
  datatype Quality = Quality(location: bool, status: bool)

  predicate ValidKey(key: Key) {
    forall i :: 0 <= i < |key| ==> key[i].Some? && key[i].value != ""
  }

  predicate DistinctIds(rows: seq<Row>) {
    forall i, j :: 0 <= i < j < |rows| ==> rows[i].rowid != rows[j].rowid
  }

  // ---------------------------------------------------------------- the order of quality

  function StatusRank(status: Option<string>): int {
    match status
    case None => 15
    case Some(s) =>
      if s == "Downloaded" || s == "Archived" then 50
      else if s == "Snatched" then 40
      else if s == "Failed" then 20
      else if s == "Wanted" || s == "Skipped" then 10
      else 15
  }

  function LocationRank(location: Option<string>): int {
    if location.Some? && location.value != "" then 1 else 0
  }

  /** a comes before b in the ORDER BY ... DESC of the quality columns and the row identity. */
  predicate Better(a: Row, b: Row, q: Quality) {
    var la := if q.location then LocationRank(a.location) else 0;
    var lb := if q.location then LocationRank(b.location) else 0;
    var sa, sb := if q.status then StatusRank(a.status) else 0, if q.status then StatusRank(b.status) else 0;
    la > lb || (la == lb && (sa > sb || (sa == sb && a.rowid > b.rowid)))
  }

  predicate Rival(a: Row, r: Row) {
    ValidKey(a.key) && a.key == r.key
  }

  // ---------------------------------------------------------------- the DELETE statements

  /** SELECT MAX(rowid) ... WHERE valid GROUP BY key */
  function GroupMaxima(rows: seq<Row>): set<int> {
    set r | r in rows && ValidKey(r.key) && (forall s :: s in rows && Rival(s, r) ==> s.rowid <= r.rowid) :: r.rowid
  }

  function DeleteNotMaximal(rows: seq<Row>, maxima: set<int>): seq<Row> {
    if rows == [] then []
    else
      var r := rows[0];
      (if r.rowid !in maxima && ValidKey(r.key) then [] else [r]) + DeleteNotMaximal(rows[1..], maxima)
  }

  /** ROW_NUMBER() OVER (PARTITION BY key ORDER BY quality) among the valid rows. */
  function RowNumber(rows: seq<Row>, r: Row, q: Quality): nat {
    1 + |set s | s in rows && Rival(s, r) && Better(s, r, q)|
  }

  /** rowid IN (SELECT rowid ... WHERE row_number > 1) */
  function NumberedIds(rows: seq<Row>, q: Quality): set<int> {
    set r | r in rows && ValidKey(r.key) && RowNumber(rows, r, q) > 1 :: r.rowid
  }

  function DeleteIds(rows: seq<Row>, ids: set<int>): seq<Row> {
    if rows == [] then [] else (if rows[0].rowid in ids then [] else [rows[0]]) + DeleteIds(rows[1..], ids)
  }

  /** The statement _dedup_delete_sql builds: the plain form without quality columns. */
  function DeleteDuplicates(rows: seq<Row>, q: Quality): seq<Row> {
    if q.location || q.status then DeleteIds(rows, NumberedIds(rows, q))
    else DeleteNotMaximal(rows, GroupMaxima(rows))
  }

  // ---------------------------------------------------------------- what they mean

  predicate Survives(rows: seq<Row>, r: Row, q: Quality) {
    ValidKey(r.key) ==> !exists s :: s in rows && Rival(s, r) && Better(s, r, q)
  }

  /** The rows that survive, in order: of every valid key its best row, and every other row. */
  function Best(all: seq<Row>, rows: seq<Row>, q: Quality): seq<Row> {
    if rows == [] then []
    else (if Survives(all, rows[0], q) then [rows[0]] else []) + Best(all, rows[1..], q)
  }

  lemma {:induction false} NotMaximalIsBest(all: seq<Row>, rows: seq<Row>)
    requires DistinctIds(all) && forall r :: r in rows ==> r in all
    ensures DeleteNotMaximal(rows, GroupMaxima(all)) == Best(all, rows, Quality(false, false))
  {
    if rows != [] {
      var r := rows[0];
      assert r in all;
      if ValidKey(r.key) && r.rowid in GroupMaxima(all) {
        var m :| m in all && m.rowid == r.rowid && ValidKey(m.key)
            && (forall s :: s in all && Rival(s, m) ==> s.rowid <= m.rowid);
        SameRow(all, m, r);
      }
      NotMaximalIsBest(all, rows[1..]);
    }
  }

  lemma SameRow(all: seq<Row>, a: Row, b: Row)
    requires DistinctIds(all) && a in all && b in all && a.rowid == b.rowid
    ensures a == b
  {
    var i :| 0 <= i < |all| && all[i] == a;
    var j :| 0 <= j < |all| && all[j] == b;
    if i < j {} else if j < i {}
  }

  lemma {:induction false} NumberedIsBest(all: seq<Row>, rows: seq<Row>, q: Quality)
    requires DistinctIds(all) && forall r :: r in rows ==> r in all
    ensures DeleteIds(rows, NumberedIds(all, q)) == Best(all, rows, q)
  {
    if rows != [] {
      var r := rows[0];
      assert r in all;
      if r.rowid in NumberedIds(all, q) {
        var m :| m in all && m.rowid == r.rowid && ValidKey(m.key) && RowNumber(all, m, q) > 1;
        SameRow(all, m, r);
        var before := set s | s in all && Rival(s, r) && Better(s, r, q);
        assert before != {};
        var s :| s in before;
      } else if ValidKey(r.key) {
        assert RowNumber(all, r, q) <= 1;
        var before := set s | s in all && Rival(s, r) && Better(s, r, q);
        assert forall s :: s in all && Rival(s, r) && Better(s, r, q) ==> s in before;
      }
      NumberedIsBest(all, rows[1..], q);
    }
  }

  /** Both forms of the statement keep the best row of every valid key and every row without one. */
  lemma DeleteKeepsBest(rows: seq<Row>, q: Quality)
    requires DistinctIds(rows)
    ensures DeleteDuplicates(rows, q) == Best(rows, rows, q)
  {
    if q.location || q.status {
      NumberedIsBest(rows, rows, q);
    } else {
      NotMaximalIsBest(rows, rows);
    }
  }

  lemma {:induction false} BestMembers(all: seq<Row>, rows: seq<Row>, q: Quality)
    ensures forall r :: r in Best(all, rows, q) <==> r in rows && Survives(all, r, q)
  {
    if rows != [] {
      BestMembers(all, rows[1..], q);
    }
  }

  lemma {:induction false} BestDistinct(all: seq<Row>, rows: seq<Row>, q: Quality)
    requires DistinctIds(rows)
    ensures DistinctIds(Best(all, rows, q))
  {
    if rows != [] {
      BestDistinct(all, rows[1..], q);
      BestMembers(all, rows[1..], q);
      var rest := Best(all, rows[1..], q);
      forall r | r in rest ensures r.rowid != rows[0].rowid {
        var j :| 0 <= j < |rows[1..]| && rows[1..][j] == r;
        assert rows[j + 1] == r;
      }
    }
  }

  lemma BetterIsTotal(a: Row, b: Row, c: Row, q: Quality)
    ensures a.rowid != b.rowid ==> Better(a, b, q) || Better(b, a, q)
    ensures !(Better(a, b, q) && Better(b, a, q))
    ensures Better(a, b, q) && Better(b, c, q) ==> Better(a, c, q)
  {
  }

  /** Every valid key has a best row. */
  lemma {:induction false} HasBest(rows: seq<Row>, key: Key, q: Quality) returns (best: Row)
    requires ValidKey(key) && exists r :: r in rows && r.key == key
    ensures best in rows && best.key == key
    ensures !exists s :: s in rows && Rival(s, best) && Better(s, best, q)
  {
    if exists r :: r in rows[1..] && r.key == key {
      best := HasBest(rows[1..], key, q);
      if rows[0].key == key && Better(rows[0], best, q) {
        forall s | s in rows && Rival(s, rows[0]) && Better(s, rows[0], q) ensures false {
          BetterIsTotal(s, rows[0], best, q);
          BetterIsTotal(rows[0], rows[0], rows[0], q);
          if s in rows[1..] {
            assert Rival(s, best);
          }
        }
        best := rows[0];
      }
    } else {
      best := rows[0];
      assert forall s :: s in rows && s.key == key ==> s == rows[0];
      BetterIsTotal(best, best, best, q);
    }
  }

  /** How many rows hold a key. */
  function Count(rows: seq<Row>, key: Key): nat {
    if rows == [] then 0 else (if rows[0].key == key then 1 else 0) + Count(rows[1..], key)
  }

  function Invalid(rows: seq<Row>): seq<Row> {
    if rows == [] then []
    else (if ValidKey(rows[0].key) then [] else [rows[0]]) + Invalid(rows[1..])
  }

  /** Deduplication: rows without a valid key stay, in order, and each valid key keeps exactly one of its rows. */
  ghost predicate OnePerKey(before: seq<Row>, after: seq<Row>) {
    && Invalid(after) == Invalid(before)
    && (forall r :: r in after ==> r in before)
    && (forall key :: ValidKey(key) ==> Count(after, key) == if Count(before, key) > 0 then 1 else 0)
  }

  lemma {:induction false} CountZero(rows: seq<Row>, key: Key)
    ensures Count(rows, key) == 0 <==> forall r :: r in rows ==> r.key != key
  {
    if rows != [] {
      CountZero(rows[1..], key);
    }
  }

  lemma {:induction false} CountOne(rows: seq<Row>, key: Key, r: Row)
    requires DistinctIds(rows) && r in rows && r.key == key
    requires forall s :: s in rows && s.key == key ==> s == r
    ensures Count(rows, key) == 1
  {
    if rows[0] == r {
      CountZero(rows[1..], key);
      forall s | s in rows[1..] ensures s.key != key {
        var j :| 0 <= j < |rows[1..]| && rows[1..][j] == s;
        assert rows[j + 1] == s;
      }
    } else {
      CountOne(rows[1..], key, r);
    }
  }

  lemma {:induction false} InvalidOfBest(all: seq<Row>, rows: seq<Row>, q: Quality)
    ensures Invalid(Best(all, rows, q)) == Invalid(rows)
  {
    if rows != [] {
      InvalidOfBest(all, rows[1..], q);
      var rest := Best(all, rows[1..], q);
      assert ([rows[0]] + rest)[1..] == rest && [] + rest == rest;
    }
  }

  /** The DELETE leaves exactly one row of every valid key and touches no other row. */
  lemma DeleteLeavesOnePerKey(rows: seq<Row>, q: Quality)
    requires DistinctIds(rows)
    ensures OnePerKey(rows, DeleteDuplicates(rows, q)) && DistinctIds(DeleteDuplicates(rows, q))
  {
    DeleteKeepsBest(rows, q);
    var after := Best(rows, rows, q);
    BestMembers(rows, rows, q);
    BestDistinct(rows, rows, q);
    InvalidOfBest(rows, rows, q);
    forall key | ValidKey(key) ensures Count(after, key) == if Count(rows, key) > 0 then 1 else 0 {
      CountZero(rows, key);
      if Count(rows, key) > 0 {
        var best := HasBest(rows, key, q);
        forall s | s in after && s.key == key ensures s == best {
          if s.rowid == best.rowid {
            SameRow(rows, s, best);
          } else {
            BetterIsTotal(s, best, best, q);
          }
        }
        CountOne(after, key, best);
      } else {
        CountZero(after, key);
      }
    }
  }

  /** The survivor of a valid key is the lexicographic maximum of (location, status rank, row identity). */
  lemma SurvivorIsBest(rows: seq<Row>, q: Quality, r: Row, s: Row)
    requires DistinctIds(rows) && r in DeleteDuplicates(rows, q) && s in rows
    requires ValidKey(s.key) && s.key == r.key && s != r
    ensures Better(r, s, q)
  {
    DeleteKeepsBest(rows, q);
    BestMembers(rows, rows, q);
    if s.rowid == r.rowid {
      SameRow(rows, s, r);
    }
    BetterIsTotal(s, r, r, q);
  }

  /** What the survivors are about: rows with a file, and the states from finished down to a stub. */
  predicate OnDisk(r: Row) {
    r.location.Some? && r.location.value != ""
  }

  predicate Finished(r: Row) {
    r.status == Some("Downloaded") || r.status == Some("Archived")
  }

  predicate Grabbed(r: Row) {
    r.status == Some("Snatched")
  }

  predicate Attempted(r: Row) {
    r.status == Some("Failed")
  }

  predicate Stub(r: Row) {
    r.status == Some("Wanted") || r.status == Some("Skipped")
  }

  /** Statuses that count the same; all others, and none, are one class. */
  predicate SameClass(r: Row, s: Row) {
    Finished(r) == Finished(s) && Grabbed(r) == Grabbed(s) && Attempted(r) == Attempted(s) && Stub(r) == Stub(s)
  }

  /**
   The row r that is kept and any row s of its key: r has a file if s has one; as far as files go
   alike, r is finished if s is, at least snatched if s is, at least attempted if s is, and no stub
   if s is none; and at equal status too, r is the newer.
   */
  lemma SurvivorPrefers(rows: seq<Row>, q: Quality, r: Row, s: Row)
    requires DistinctIds(rows) && r in DeleteDuplicates(rows, q) && s in rows
    requires ValidKey(s.key) && s.key == r.key
    ensures q.location && OnDisk(s) ==> OnDisk(r)
    ensures q.status && (q.location ==> OnDisk(r) == OnDisk(s)) ==>
              && (Finished(s) ==> Finished(r))
              && (Grabbed(s) ==> Finished(r) || Grabbed(r))
              && (Attempted(s) ==> Finished(r) || Grabbed(r) || Attempted(r))
              && (!Stub(s) ==> !Stub(r))
    ensures (q.location ==> OnDisk(r) == OnDisk(s)) && (q.status ==> SameClass(r, s)) ==> s.rowid <= r.rowid
  {
    if s != r {
      SurvivorIsBest(rows, q, r, s);
    }
  }

  /** Every row that is dropped has a valid key, and a row of that key is kept. */
  lemma DroppedHasSurvivor(rows: seq<Row>, q: Quality, s: Row)
    requires DistinctIds(rows) && s in rows && s !in DeleteDuplicates(rows, q)
    ensures ValidKey(s.key) && exists r :: r in DeleteDuplicates(rows, q) && r.key == s.key
  {
    DeleteKeepsBest(rows, q);
    BestMembers(rows, rows, q);
    var best := HasBest(rows, s.key, q);
    assert Survives(rows, best, q) && best in DeleteDuplicates(rows, q);
  }

  /** A Wanted stub with the older row identity gives way to the Downloaded row, and with the newer one too. */
  lemma DownloadedBeatsWanted(key: Key, location: Option<string>, a: int, b: int)
    requires ValidKey(key) && a != b
    ensures var wanted, downloaded := Row(a, key, location, Some("Wanted")), Row(b, key, location, Some("Downloaded"));
            DeleteDuplicates([wanted, downloaded], Quality(true, true)) == [downloaded]
  {
    var wanted, downloaded := Row(a, key, location, Some("Wanted")), Row(b, key, location, Some("Downloaded"));
    var rows, q := [wanted, downloaded], Quality(true, true);
    DeleteKeepsBest(rows, q);
    assert wanted in rows && downloaded in rows;
    assert Better(downloaded, wanted, q) && Rival(downloaded, wanted);
    assert !Survives(rows, wanted, q);
    assert Survives(rows, downloaded, q);
    assert rows[1..] == [downloaded] && [downloaded][1..] == [];
    assert Best(rows, [downloaded], q) == [downloaded] + Best(rows, [], q);
  }

  lemma {:induction false} BestOfAll(all: seq<Row>, rows: seq<Row>, q: Quality)
    requires forall r :: r in rows ==> Survives(all, r, q)
    ensures Best(all, rows, q) == rows
  {
    if rows != [] {
      BestOfAll(all, rows[1..], q);
    }
  }

  /** A second deduplication deletes nothing. */
  lemma DeleteIsIdempotent(rows: seq<Row>, q: Quality)
    requires DistinctIds(rows)
    ensures DeleteDuplicates(DeleteDuplicates(rows, q), q) == DeleteDuplicates(rows, q)
  {
    var after := DeleteDuplicates(rows, q);
    DeleteKeepsBest(rows, q);
    BestMembers(rows, rows, q);
    BestDistinct(rows, rows, q);
    DeleteKeepsBest(after, q);
    BestOfAll(after, after, q);
  }

  // ---------------------------------------------------------------- MySQL: count, then delete all but one

  /** SELECT key, COUNT(*) ... WHERE valid GROUP BY key HAVING COUNT(*) > 1: each key once. */
  ghost predicate IsDuplicateList(rows: seq<Row>, dups: seq<(Key, nat)>) {
    && (forall i :: 0 <= i < |dups| ==> ValidKey(dups[i].0) && dups[i].1 == Count(rows, dups[i].0) && dups[i].1 > 1)
    && (forall i, j :: 0 <= i < j < |dups| ==> dups[i].0 != dups[j].0)
    && (forall key :: ValidKey(key) && Count(rows, key) > 1 ==> exists i :: 0 <= i < |dups| && dups[i].0 == key)
  }

  /** What DELETE ... WHERE key = k AND valid LIMIT n may leave: n rows of the key fewer, nothing else changed. */
  ghost predicate DeletedSome(before: seq<Row>, after: seq<Row>, key: Key, n: nat) {
    && Invalid(after) == Invalid(before)
    && (forall r :: r in after ==> r in before)
    && Count(after, key) == (if Count(before, key) >= n then Count(before, key) - n else 0)
    && (forall other :: other != key ==> Count(after, other) == Count(before, other))
  }

  /** Which n of the matching rows go is up to the engine. */
  method DeleteLimited(rows: seq<Row>, key: Key, n: nat) returns (left: seq<Row>)
    requires ValidKey(key)
    ensures DeletedSome(rows, left, key, n)
  {
    if rows == [] {
      return [];
    }
    var r := rows[0];
    var deleteFirst := *;
    if r.key == key && n > 0 && (deleteFirst || Count(rows[1..], key) < n) {
      left := DeleteLimited(rows[1..], key, n - 1);
    } else {
      var rest := DeleteLimited(rows[1..], key, n);
      left := [r] + rest;
      assert left[1..] == rest;
    }
  }

  method DuplicateList(rows: seq<Row>) returns (dups: seq<(Key, nat)>)
    ensures IsDuplicateList(rows, dups)
  {
    dups := [];
    var i := 0;
    while i < |rows|
      invariant 0 <= i <= |rows|
      invariant forall k :: 0 <= k < |dups| ==>
                  ValidKey(dups[k].0) && dups[k].1 == Count(rows, dups[k].0) && dups[k].1 > 1
      invariant forall k, l :: 0 <= k < l < |dups| ==> dups[k].0 != dups[l].0
      invariant forall j :: 0 <= j < i && ValidKey(rows[j].key) && Count(rows, rows[j].key) > 1 ==>
                  exists k :: 0 <= k < |dups| && dups[k].0 == rows[j].key
    {
      var key := rows[i].key;
      if ValidKey(key) && Count(rows, key) > 1 && forall k :: 0 <= k < |dups| ==> dups[k].0 != key {
        var before := dups;
        dups := dups + [(key, Count(rows, key))];
        forall j | 0 <= j < i + 1 && ValidKey(rows[j].key) && Count(rows, rows[j].key) > 1
          ensures exists k :: 0 <= k < |dups| && dups[k].0 == rows[j].key
        {
          if j < i {
            var k :| 0 <= k < |before| && before[k].0 == rows[j].key;
            assert dups[k].0 == rows[j].key;
          } else {
            assert dups[|before|].0 == rows[j].key;
          }
        }
      }
      i := i + 1;
    }
    forall key | ValidKey(key) && Count(rows, key) > 1 ensures exists k :: 0 <= k < |dups| && dups[k].0 == key {
      CountZero(rows, key);
      var r :| r in rows && r.key == key;
      var j :| 0 <= j < |rows| && rows[j] == r;
    }
  }

  /** A deduplication that stopped on the way: some of the valid keys are down to one row, the others untouched. */
  ghost predicate SomeDeduplicated(before: seq<Row>, after: seq<Row>) {
    && Invalid(after) == Invalid(before)
    && (forall r :: r in after ==> r in before)
    && (forall key :: ValidKey(key) ==> Count(after, key) == Count(before, key) || Count(after, key) == 1)
  }

  /**
   The loop refines the one-per-key specification, whichever rows the engine deletes.  Statement
   number 0 is the SELECT, the others are the DELETEs; if one raises, the loop stops there.
   */
  method MysqlDedup(rows: seq<Row>, raises: Option<nat>) returns (left: seq<Row>, ok: bool)
    ensures ok ==> OnePerKey(rows, left)
    ensures !ok ==> raises.Some? && SomeDeduplicated(rows, left)
    ensures raises == Some(0) ==> !ok && left == rows
  {
    left := rows;
    if raises == Some(0) {
      return left, false;
    }
    var dups := DuplicateList(rows);
    for i := 0 to |dups|
      invariant Invalid(left) == Invalid(rows)
      invariant forall r :: r in left ==> r in rows
      invariant forall k :: 0 <= k < i ==> Count(left, dups[k].0) == 1
      invariant forall key :: (forall k :: 0 <= k < i ==> dups[k].0 != key) ==> Count(left, key) == Count(rows, key)
    {
      if raises == Some(i + 1) {
        return left, false;
      }
      var cnt := dups[i].1;
      assert Count(left, dups[i].0) == cnt;
      left := DeleteLimited(left, dups[i].0, cnt - 1);
    }
    forall key | ValidKey(key) ensures Count(left, key) == if Count(rows, key) > 0 then 1 else 0 {
      if exists k :: 0 <= k < |dups| && dups[k].0 == key {
        var k :| 0 <= k < |dups| && dups[k].0 == key;
      } else {
        assert Count(rows, key) <= 1;
      }
    }
    ok := true;
  }

  // ---------------------------------------------------------------- what the constraint then accepts

  /** A partial unique index on the valid keys, as SQLite gets. */
  predicate ValidKeysUnique(rows: seq<Row>) {
    forall i, j :: 0 <= i < j < |rows| && ValidKey(rows[i].key) ==> rows[i].key != rows[j].key
  }

  predicate NoNull(key: Key) {
    forall i :: 0 <= i < |key| ==> key[i].Some?
  }

  /** A full UNIQUE constraint, as PostgreSQL and MySQL get: an empty string is a value, only NULL never conflicts. */
  predicate KeysUnique(rows: seq<Row>) {
    forall i, j :: 0 <= i < j < |rows| && NoNull(rows[i].key) ==> rows[i].key != rows[j].key
  }

  lemma {:induction false} CountUnique(rows: seq<Row>, i: nat, j: nat)
    requires i < j < |rows| && rows[i].key == rows[j].key
    ensures Count(rows, rows[i].key) >= 2
  {
    if i == 0 {
      CountZero(rows[1..], rows[0].key);
      assert rows[1..][j - 1] == rows[j];
    } else {
      CountUnique(rows[1..], i - 1, j - 1);
    }
  }

  lemma OnePerKeyIsUnique(before: seq<Row>, after: seq<Row>)
    requires OnePerKey(before, after)
    ensures ValidKeysUnique(after)
  {
    forall i, j | 0 <= i < j < |after| && ValidKey(after[i].key) ensures after[i].key != after[j].key {
      if after[i].key == after[j].key {
        CountUnique(after, i, j);
      }
    }
  }

  lemma {:induction false} InvalidMember(rows: seq<Row>, i: nat) returns (k: nat)
    requires i < |rows| && !ValidKey(rows[i].key)
    ensures k < |Invalid(rows)| && Invalid(rows)[k] == rows[i] && k <= i
  {
    if i == 0 {
      k := 0;
    } else {
      k := InvalidMember(rows[1..], i - 1);
      if !ValidKey(rows[0].key) {
        k := k + 1;
      }
    }
  }

  /** Two rows of a sublist of invalid rows sit, in order, in the whole. */
  lemma {:induction false} InvalidOrigin(rows: seq<Row>, i: nat, j: nat) returns (a: nat, b: nat)
    requires i < j < |Invalid(rows)|
    ensures a < b < |rows| && rows[a] == Invalid(rows)[i] && rows[b] == Invalid(rows)[j]
  {
    if ValidKey(rows[0].key) {
      a, b := InvalidOrigin(rows[1..], i, j);
      a, b := a + 1, b + 1;
    } else if i == 0 {
      a := 0;
      b := InvalidSingle(rows[1..], j - 1);
      b := b + 1;
    } else {
      a, b := InvalidOrigin(rows[1..], i - 1, j - 1);
      a, b := a + 1, b + 1;
    }
  }

  lemma {:induction false} InvalidSingle(rows: seq<Row>, i: nat) returns (a: nat)
    requires i < |Invalid(rows)|
    ensures a < |rows| && rows[a] == Invalid(rows)[i]
  {
    if ValidKey(rows[0].key) {
      a := InvalidSingle(rows[1..], i);
      a := a + 1;
    } else if i == 0 {
      a := 0;
    } else {
      a := InvalidSingle(rows[1..], i - 1);
      a := a + 1;
    }
  }

  /** No two rows share a key without NULL that contains an empty string. */
  predicate NoEmptyDuplicates(rows: seq<Row>) {
    forall i, j :: 0 <= i < j < |rows| && NoNull(rows[i].key) && !ValidKey(rows[i].key) ==> rows[i].key != rows[j].key
  }

  lemma {:induction false} EmptyDuplicatesOfInvalid(rows: seq<Row>)
    ensures NoEmptyDuplicates(rows) <==> NoEmptyDuplicates(Invalid(rows))
  {
    var bad := Invalid(rows);
    if !NoEmptyDuplicates(bad) {
      var i, j :| 0 <= i < j < |bad| && NoNull(bad[i].key) && !ValidKey(bad[i].key) && bad[i].key == bad[j].key;
      var a, b := InvalidOrigin(rows, i, j);
    }
    if !NoEmptyDuplicates(rows) {
      var i, j :| 0 <= i < j < |rows| && NoNull(rows[i].key) && !ValidKey(rows[i].key) && rows[i].key == rows[j].key;
      var k, l := InvalidPair(rows, i, j);
    }
  }

  lemma {:induction false} InvalidPair(rows: seq<Row>, i: nat, j: nat) returns (k: nat, l: nat)
    requires i < j < |rows| && !ValidKey(rows[i].key) && !ValidKey(rows[j].key)
    ensures k < l < |Invalid(rows)| && Invalid(rows)[k] == rows[i] && Invalid(rows)[l] == rows[j]
  {
    if i == 0 {
      k := 0;
      l := InvalidMember(rows[1..], j - 1);
      l := l + 1;
    } else {
      k, l := InvalidPair(rows[1..], i - 1, j - 1);
      if !ValidKey(rows[0].key) {
        k, l := k + 1, l + 1;
      }
    }
  }

  /**
   After deduplication the partial index always fits; the full constraint fits exactly when the
   original rows had no duplicates among the keys the predicate leaves out.
   */
  lemma FullConstraintFits(before: seq<Row>, after: seq<Row>)
    requires OnePerKey(before, after)
    ensures KeysUnique(after) <==> NoEmptyDuplicates(before)
  {
    OnePerKeyIsUnique(before, after);
    EmptyDuplicatesOfInvalid(before);
    EmptyDuplicatesOfInvalid(after);
    if NoEmptyDuplicates(after) {
      forall i, j | 0 <= i < j < |after| && NoNull(after[i].key) ensures after[i].key != after[j].key {
        if ValidKey(after[i].key) {}
      }
    }
  }

  /** Two rows with the empty key survive the deduplication, and no full constraint fits. */
  lemma EmptyKeysStay(location: Option<string>, status: Option<string>)
    ensures var rows := [Row(1, [Some("")], location, status), Row(2, [Some("")], location, status)];
            OnePerKey(rows, rows) && !KeysUnique(rows)
  {
    var rows := [Row(1, [Some("")], location, status), Row(2, [Some("")], location, status)];
    assert !ValidKey(rows[0].key) && !ValidKey(rows[1].key) by { assert rows[0].key[0] == Some(""); }
    assert NoNull(rows[0].key) && rows[0].key == rows[1].key;
    forall key | ValidKey(key) ensures Count(rows, key) == 0 {
      CountZero(rows, key);
    }
  }
}
