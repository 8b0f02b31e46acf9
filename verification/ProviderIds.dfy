/**
 Provider identities: completing the loaded entries with ids (get_extras), folding the retired
 single Torznab provider into them (_absorb_legacy_torznab), and the normalisation every write
 goes through (_assign_provider_ids, _validate_provider_names).
 */
module ProviderIds {
  import opened Options
  import opened Providers
  import opened Text

  // ---------------------------------------------------------------- reserved identities

  function ReservedIds(s: Switches): set<int> {
    (if s.experimental then {101} else {}) + (if s.ddl && s.getcomics then {200} else {})
    + (if s.ddl && s.external then {201} else {}) + (if s.prowlarr then {202} else {})
  }

  function ReservedNames(s: Switches): set<string> {
    (if s.torrentSearch && s.enable32p then {"32p"} else {}) + (if s.experimental then {"experimental"} else {})
    + (if s.ddl && s.getcomics then {"ddl(getcomics)"} else {})
    + (if s.ddl && s.external then {"ddl(external)"} else {}) + (if s.prowlarr then {"prowlarr"} else {})
  }

  /** The spelling under which provider names must be unique. */
  function Canonical(f: Fields): string {
    Lower(Strip(NameOf(f)))
  }

  /** An identity is reserved exactly while the built-in provider it belongs to is switched on. */
  lemma ReservedExactlyWhen(s: Switches, id: int, name: string)
    ensures id in ReservedIds(s) <==>
              || (id == 101 && s.experimental) || (id == 202 && s.prowlarr)
              || (s.ddl && ((id == 200 && s.getcomics) || (id == 201 && s.external)))
    ensures name in ReservedNames(s) <==>
              || (name == "32p" && s.torrentSearch && s.enable32p)
              || (name == "experimental" && s.experimental) || (name == "prowlarr" && s.prowlarr)
              || (s.ddl && ((name == "ddl(getcomics)" && s.getcomics) || (name == "ddl(external)" && s.external)))
  {
  }

  // ---------------------------------------------------------------- ids

  predicate DistinctIds(providers: seq<Provider>) {
    forall i, j :: 0 <= i < j < |providers| ==> providers[i].id != providers[j].id
  }

  predicate IdsAvoid(providers: seq<Provider>, taken: set<int>) {
    forall i :: 0 <= i < |providers| ==> providers[i].id !in taken
  }

  predicate DistinctExplicit(entries: seq<Entry>) {
    forall i, j :: 0 <= i < j < |entries| && entries[i].id.Some? ==> entries[i].id != entries[j].id
  }

  predicate ExplicitAvoid(entries: seq<Entry>, taken: set<int>) {
    forall i :: 0 <= i < |entries| && entries[i].id.Some? ==> entries[i].id.value !in taken
  }

  predicate ExplicitAtMost(entries: seq<Entry>, bound: int) {
    forall i :: 0 <= i < |entries| && entries[i].id.Some? ==> entries[i].id.value <= bound
  }

  function IdSet(providers: seq<Provider>): set<int> {
    if providers == [] then {} else IdSet(providers[..|providers| - 1]) + {providers[|providers| - 1].id}
  }

  lemma {:induction false} InIdSet(providers: seq<Provider>, id: int)
    ensures id in IdSet(providers) <==> exists i :: 0 <= i < |providers| && providers[i].id == id
  {
    if providers != [] {
      InIdSet(providers[..|providers| - 1], id);
    }
  }

  /** The providers are the entries with an id filled in where it was missing. */
  predicate Completes(providers: seq<Provider>, entries: seq<Entry>) {
    && |providers| == |entries|
    && forall i :: 0 <= i < |entries| ==>
         providers[i].fields == entries[i].fields && (entries[i].id.Some? ==> providers[i].id == entries[i].id.value)
  }

  // ---------------------------------------------------------------- _assign_provider_ids

  datatype Allocation = Allocation(providers: seq<Provider>, nextId: int, seen: set<int>)

  /** The first number from n on that is not taken. */
  function FirstFree(n: int, taken: set<int>): (id: int)
    ensures n <= id && id !in taken
    decreases |taken|
  {
    if n in taken then FirstFree(n + 1, taken - {n}) else n
  }

  /** Removing smaller numbers does not matter, so counting up finds the first free one. */
  lemma {:induction false} FirstFreeStep(n: int, m: int, taken: set<int>)
    requires m < n
    ensures FirstFree(n, taken - {m}) == FirstFree(n, taken)
    decreases |taken|
  {
    if n in taken {
      FirstFreeStep(n + 1, m, taken - {n});
      assert taken - {m} - {n} == taken - {n} - {m};
    }
  }

  function AssignOne(a: Allocation, entry: Entry): Option<Allocation> {
    var id := if entry.id.Some? then entry.id.value else FirstFree(a.nextId + 1, a.seen);
    if id in a.seen then None
    else Some(Allocation(a.providers + [Provider(entry.fields, id)],
                         if entry.id.Some? then a.nextId else id, a.seen + {id}))
  }

  /** _assign_provider_ids; None where it raises ValueError. */
  function Assign(entries: seq<Entry>, nextId: int, seen: set<int>): Option<Allocation> {
    if entries == [] then Some(Allocation([], nextId, seen))
    else
      var before := Assign(entries[..|entries| - 1], nextId, seen);
      if before.None? then None else AssignOne(before.value, entries[|entries| - 1])
  }

  lemma {:induction false} AssignNone(entries: seq<Entry>, k: nat, nextId: int, seen: set<int>)
    requires k <= |entries| && Assign(entries[..k], nextId, seen).None?
    ensures Assign(entries, nextId, seen).None?
    decreases |entries|
  {
    if k < |entries| {
      assert entries[..|entries| - 1][..k] == entries[..k];
      AssignNone(entries[..|entries| - 1], k, nextId, seen);
    } else {
      assert entries[..k] == entries;
    }
  }

  method AssignProviderIds(entries: seq<Entry>, nextId: int, seen: set<int>) returns (r: Option<Allocation>)
    ensures r == Assign(entries, nextId, seen)
  {
    var next, taken, normalized := nextId, seen, [];
    for k := 0 to |entries|
      invariant Assign(entries[..k], nextId, seen) == Some(Allocation(normalized, next, taken))
    {
      var entry := entries[k];
      assert entries[..k + 1][..k] == entries[..k];
      var id;
      if entry.id.Some? {
        id := entry.id.value;
      } else {
        ghost var before := next;
        next := next + 1;
        while next in taken
          invariant FirstFree(next, taken) == FirstFree(before + 1, taken)
          decreases FirstFree(before + 1, taken) - next
        {
          FirstFreeStep(next + 1, next, taken);
          next := next + 1;
        }
        id := next;
      }
      if id in taken {
        AssignNone(entries, k + 1, nextId, seen);
        return None;
      }
      taken := taken + {id};
      normalized := normalized + [Provider(entry.fields, id)];
    }
    assert entries[..|entries|] == entries;
    return Some(Allocation(normalized, next, taken));
  }

  predicate FreshAbove(entries: seq<Entry>, providers: seq<Provider>, low: int, high: int)
    requires |providers| == |entries|
  {
    forall i :: 0 <= i < |entries| && entries[i].id.None? ==> low < providers[i].id <= high
  }

  lemma {:induction false} AssignedEntries(entries: seq<Entry>, nextId: int, seen: set<int>)
    requires Assign(entries, nextId, seen).Some?
    ensures var a := Assign(entries, nextId, seen).value;
            && Completes(a.providers, entries) && a.nextId >= nextId
            && FreshAbove(entries, a.providers, nextId, a.nextId)
  {
    if entries != [] {
      AssignedEntries(entries[..|entries| - 1], nextId, seen);
    }
  }

  lemma {:induction false} AssignedSeen(entries: seq<Entry>, nextId: int, seen: set<int>)
    requires Assign(entries, nextId, seen).Some?
    ensures Assign(entries, nextId, seen).value.seen == seen + IdSet(Assign(entries, nextId, seen).value.providers)
  {
    if entries != [] {
      AssignedSeen(entries[..|entries| - 1], nextId, seen);
      var before := Assign(entries[..|entries| - 1], nextId, seen).value.providers;
      var after := Assign(entries, nextId, seen).value.providers;
      assert after[..|after| - 1] == before;
    }
  }

  lemma {:induction false} AssignedDistinct(entries: seq<Entry>, nextId: int, seen: set<int>)
    requires Assign(entries, nextId, seen).Some?
    ensures var a := Assign(entries, nextId, seen).value;
            DistinctIds(a.providers) && IdsAvoid(a.providers, seen)
  {
    if entries != [] {
      var front := entries[..|entries| - 1];
      AssignedDistinct(front, nextId, seen);
      AssignedSeen(front, nextId, seen);
      var before := Assign(front, nextId, seen).value.providers;
      var after := Assign(entries, nextId, seen).value.providers;
      InIdSet(before, after[|before|].id);
    }
  }

  /** Whatever the entries, a normalisation that does not raise has these ids. */
  lemma AssignedIds(entries: seq<Entry>, nextId: int, seen: set<int>)
    requires Assign(entries, nextId, seen).Some?
    ensures var a := Assign(entries, nextId, seen).value;
            && Completes(a.providers, entries)
            && DistinctIds(a.providers) && IdsAvoid(a.providers, seen)
            && a.seen == seen + IdSet(a.providers)
            && a.nextId >= nextId && FreshAbove(entries, a.providers, nextId, a.nextId)
  {
    AssignedEntries(entries, nextId, seen);
    AssignedSeen(entries, nextId, seen);
    AssignedDistinct(entries, nextId, seen);
  }

  predicate Stored(entries: seq<Entry>, id: int) {
    exists i :: 0 <= i < |entries| && entries[i].id == Some(id)
  }

  lemma DistinctExplicitStep(entries: seq<Entry>)
    requires entries != []
    ensures var front, last := entries[..|entries| - 1], entries[|entries| - 1];
            DistinctExplicit(entries) <==> DistinctExplicit(front) && (last.id.Some? ==> !Stored(front, last.id.value))
  {
    var front, last := entries[..|entries| - 1], entries[|entries| - 1];
    assert forall i :: 0 <= i < |front| ==> front[i] == entries[i];
  }

  lemma ExplicitAvoidStep(entries: seq<Entry>, taken: set<int>)
    requires entries != []
    ensures var front, last := entries[..|entries| - 1], entries[|entries| - 1];
            ExplicitAvoid(entries, taken) <==>
              ExplicitAvoid(front, taken) && (last.id.Some? ==> last.id.value !in taken)
  {
    var front, last := entries[..|entries| - 1], entries[|entries| - 1];
    assert forall i :: 0 <= i < |front| ==> front[i] == entries[i];
  }

  function Legacies(entries: seq<Entry>): nat {
    if entries == [] then 0
    else Legacies(entries[..|entries| - 1]) + if entries[|entries| - 1].id.None? then 1 else 0
  }

  /** The numbers above m, up to x, that are neither taken nor stored. */
  function Free(m: int, x: int, taken: set<int>, entries: seq<Entry>): set<int> {
    set n | m < n <= x && n !in taken && !Stored(entries, n)
  }

  /** Everything below the first free number was taken. */
  lemma {:induction false} FirstFreeIsFirst(n: int, taken: set<int>, k: int)
    requires n <= k < FirstFree(n, taken)
    ensures k in taken
    decreases |taken|
  {
    if n < k {
      FirstFreeIsFirst(n + 1, taken - {n}, k);
    }
  }

  /** The counter passes a number only if it is taken or given out, so all it has passed are seen. */
  lemma {:induction false} PassedIsSeen(entries: seq<Entry>, nextId: int, seen: set<int>, n: int)
    requires Assign(entries, nextId, seen).Some?
    requires nextId < n <= Assign(entries, nextId, seen).value.nextId
    ensures n in Assign(entries, nextId, seen).value.seen
  {
    var before := Assign(entries[..|entries| - 1], nextId, seen).value;
    if n <= before.nextId {
      PassedIsSeen(entries[..|entries| - 1], nextId, seen, n);
    } else if n < Assign(entries, nextId, seen).value.nextId {
      FirstFreeIsFirst(before.nextId + 1, before.seen, n);
    }
  }

  /** An id that the counter did not pass is seen exactly if it was seen before or is stored. */
  lemma SeenMeansStored(entries: seq<Entry>, nextId: int, seen: set<int>, id: int)
    requires Assign(entries, nextId, seen).Some?
    requires id <= nextId || Assign(entries, nextId, seen).value.nextId < id
    ensures id in Assign(entries, nextId, seen).value.seen <==> id in seen || Stored(entries, id)
  {
    var a := Assign(entries, nextId, seen).value;
    AssignedIds(entries, nextId, seen);
    InIdSet(a.providers, id);
    if i :| 0 <= i < |a.providers| && a.providers[i].id == id {
      assert entries[i].id == Some(id);
    }
    if i :| 0 <= i < |entries| && entries[i].id == Some(id) {
      assert a.providers[i].id == id;
    }
  }

  lemma StoredIsSeen(entries: seq<Entry>, nextId: int, seen: set<int>, id: int)
    requires Assign(entries, nextId, seen).Some? && (id in seen || Stored(entries, id))
    ensures id in Assign(entries, nextId, seen).value.seen
  {
    var a := Assign(entries, nextId, seen).value;
    AssignedIds(entries, nextId, seen);
    InIdSet(a.providers, id);
    if i :| 0 <= i < |entries| && entries[i].id == Some(id) {
      assert a.providers[i].id == id;
    }
  }

  lemma StoredStep(entries: seq<Entry>, id: int)
    requires entries != []
    ensures Stored(entries, id) <==> Stored(entries[..|entries| - 1], id) || entries[|entries| - 1].id == Some(id)
  {
    var front := entries[..|entries| - 1];
    assert forall i :: 0 <= i < |front| ==> front[i] == entries[i];
  }

  /** The free numbers the counter has passed are those given out, one for each legacy entry. */
  lemma {:induction false} OneForEachLegacy(entries: seq<Entry>, nextId: int, seen: set<int>)
    requires Assign(entries, nextId, seen).Some?
    ensures |Free(nextId, Assign(entries, nextId, seen).value.nextId, seen, entries)| == Legacies(entries)
  {
    if entries == [] {
      assert Free(nextId, nextId, seen, entries) == {};
    } else {
      var front, last := entries[..|entries| - 1], entries[|entries| - 1];
      var a := Assign(front, nextId, seen).value;
      OneForEachLegacy(front, nextId, seen);
      if last.id.None? {
        FreeAfterLegacy(entries, nextId, seen);
      } else {
        FreeAfterStored(entries, nextId, seen);
      }
    }
  }

  lemma FreeAfterStored(entries: seq<Entry>, nextId: int, seen: set<int>)
    requires Assign(entries, nextId, seen).Some? && entries != [] && entries[|entries| - 1].id.Some?
    ensures var front := entries[..|entries| - 1];
            var high := Assign(front, nextId, seen).value.nextId;
            Free(nextId, high, seen, entries) == Free(nextId, high, seen, front)
  {
    var front, last := entries[..|entries| - 1], entries[|entries| - 1];
    var a := Assign(front, nextId, seen).value;
    forall n | nextId < n <= a.nextId ensures Stored(entries, n) <==> Stored(front, n) {
      StoredStep(entries, n);
      PassedIsSeen(front, nextId, seen, n);
    }
  }

  lemma FreeAfterLegacy(entries: seq<Entry>, nextId: int, seen: set<int>)
    requires Assign(entries, nextId, seen).Some? && entries != [] && entries[|entries| - 1].id.None?
    ensures var front := entries[..|entries| - 1];
            var a := Assign(front, nextId, seen).value;
            var id := Assign(entries, nextId, seen).value.nextId;
            && Free(nextId, id, seen, entries) == Free(nextId, a.nextId, seen, front) + {id}
            && id !in Free(nextId, a.nextId, seen, front)
  {
    var front := entries[..|entries| - 1];
    var a := Assign(front, nextId, seen).value;
    var id := Assign(entries, nextId, seen).value.nextId;
    assert a.nextId >= nextId by { AssignedIds(front, nextId, seen); }
    forall n | nextId < n <= id
      ensures Stored(entries, n) <==> Stored(front, n)
      ensures a.nextId < n < id ==> n in seen || Stored(front, n)
    {
      StoredStep(entries, n);
      if a.nextId < n < id {
        FirstFreeIsFirst(a.nextId + 1, a.seen, n);
        SeenMeansStored(front, nextId, seen, n);
      }
    }
    assert id !in seen && !Stored(front, id) by {
      if id in seen || Stored(front, id) {
        StoredIsSeen(front, nextId, seen, id);
      }
    }
  }

  lemma SubsetSize(a: set<int>, b: set<int>)
    requires a <= b
    ensures |a| <= |b|
  {
    assert b == a + (b - a);
  }

  /** The counter has passed x unless more free numbers lie up to x than legacy entries came before. */
  lemma PassedExactlyWhen(entries: seq<Entry>, nextId: int, seen: set<int>, x: int)
    requires Assign(entries, nextId, seen).Some? && x > nextId && x !in seen && !Stored(entries, x)
    ensures x in Assign(entries, nextId, seen).value.seen <==>
            Legacies(entries) >= |Free(nextId, x, seen, entries)|
  {
    var high := Assign(entries, nextId, seen).value.nextId;
    OneForEachLegacy(entries, nextId, seen);
    if x <= high {
      PassedIsSeen(entries, nextId, seen, x);
      SubsetSize(Free(nextId, x, seen, entries), Free(nextId, high, seen, entries));
    } else {
      SeenMeansStored(entries, nextId, seen, x);
      SubsetSize(Free(nextId, high, seen, entries), Free(nextId, x, seen, entries) - {x});
    }
  }

  /** Fewer legacy entries come before the stored id x than there are free numbers up to x. */
  predicate Reachable(before: seq<Entry>, nextId: int, seen: set<int>, x: int) {
    x > nextId ==> Legacies(before) < |Free(nextId, x, seen, before)|
  }

  predicate AllReachable(entries: seq<Entry>, nextId: int, seen: set<int>) {
    forall j :: 0 <= j < |entries| && entries[j].id.Some? ==> Reachable(entries[..j], nextId, seen, entries[j].id.value)
  }

  lemma AllReachableStep(entries: seq<Entry>, nextId: int, seen: set<int>)
    requires entries != []
    ensures var front, last := entries[..|entries| - 1], entries[|entries| - 1];
            AllReachable(entries, nextId, seen) <==>
              AllReachable(front, nextId, seen) && (last.id.Some? ==> Reachable(front, nextId, seen, last.id.value))
  {
    var front := entries[..|entries| - 1];
    assert forall j :: 0 <= j < |front| ==> front[..j] == entries[..j] && front[j] == entries[j];
    assert forall j :: 0 <= j < |front| && front[j].id.Some? ==>
      (Reachable(front[..j], nextId, seen, front[j].id.value) <==>
       Reachable(entries[..j], nextId, seen, entries[j].id.value));
  }

  /** The last entry, when those before it could be numbered. */
  lemma LastAssigned(entries: seq<Entry>, nextId: int, seen: set<int>)
    requires entries != [] && Assign(entries[..|entries| - 1], nextId, seen).Some?
    ensures var front, last := entries[..|entries| - 1], entries[|entries| - 1];
            Assign(entries, nextId, seen).None? <==>
            last.id.Some? && (last.id.value in seen || Stored(front, last.id.value)
                              || !Reachable(front, nextId, seen, last.id.value))
  {
    var front, last := entries[..|entries| - 1], entries[|entries| - 1];
    if last.id.Some? {
      var x := last.id.value;
      if x in seen || Stored(front, x) {
        StoredIsSeen(front, nextId, seen, x);
      } else if x > nextId {
        PassedExactlyWhen(front, nextId, seen, x);
      } else {
        SeenMeansStored(front, nextId, seen, x);
      }
    }
  }

  /**
   The normalisation raises exactly if a stored id is repeated or reserved, or if the numbering
   of earlier legacy entries gets as far as a stored id: at least as many of them come before it
   as there are free numbers up to it.
   */
  lemma {:induction false} RaisesExactlyWhen(entries: seq<Entry>, nextId: int, seen: set<int>)
    ensures Assign(entries, nextId, seen).Some? <==>
            DistinctExplicit(entries) && ExplicitAvoid(entries, seen) && AllReachable(entries, nextId, seen)
  {
    if entries != [] {
      RaisesExactlyWhen(entries[..|entries| - 1], nextId, seen);
      DistinctExplicitStep(entries);
      ExplicitAvoidStep(entries, seen);
      AllReachableStep(entries, nextId, seen);
      if Assign(entries[..|entries| - 1], nextId, seen).Some? {
        LastAssigned(entries, nextId, seen);
      }
    }
  }

  /** When no stored id lies above the counter, only repeated and reserved ids raise. */
  lemma RaisesOnlyForClashes(entries: seq<Entry>, nextId: int, seen: set<int>)
    requires ExplicitAtMost(entries, nextId)
    ensures Assign(entries, nextId, seen).Some? <==> DistinctExplicit(entries) && ExplicitAvoid(entries, seen)
  {
    RaisesExactlyWhen(entries, nextId, seen);
  }

  /** The id given to a legacy entry may be the stored id of a later entry. */
  lemma LegacyEntryTakesLaterId(legacy: Fields, stored: Fields, nextId: int)
    ensures var entries := [Entry(legacy, None), Entry(stored, Some(nextId + 1))];
            && DistinctExplicit(entries) && ExplicitAvoid(entries, {})
            && Assign(entries, nextId, {}).None?
  {
    var entries := [Entry(legacy, None), Entry(stored, Some(nextId + 1))];
    var none: set<int> := {};
    RaisesExactlyWhen(entries, nextId, none);
    assert entries[..1] == [Entry(legacy, None)] && [Entry(legacy, None)][..0] == [];
    SubsetSize(Free(nextId, nextId + 1, none, entries[..1]), {nextId + 1});
    assert Legacies(entries[..1]) == 1 && entries[1].id == Some(nextId + 1);
    assert !Reachable(entries[..1], nextId, none, nextId + 1);
  }

  function AssignBoth(first: seq<Entry>, second: seq<Entry>, nextId: int, seen: set<int>): Option<Allocation> {
    var a := Assign(first, nextId, seen);
    if a.None? then None
    else
      var b := Assign(second, a.value.nextId, a.value.seen);
      if b.None? then None
      else Some(Allocation(a.value.providers + b.value.providers, b.value.nextId, b.value.seen))
  }

  /** Normalising two lists one after the other is normalising their concatenation. */
  lemma {:induction false} AssignInTurn(first: seq<Entry>, second: seq<Entry>, nextId: int, seen: set<int>)
    ensures Assign(first + second, nextId, seen) == AssignBoth(first, second, nextId, seen)
    decreases |second|
  {
    if second == [] {
      assert first + second == first;
      if Assign(first, nextId, seen).Some? {
        var a := Assign(first, nextId, seen).value;
        assert Assign(second, a.nextId, a.seen) == Some(Allocation([], a.nextId, a.seen));
        assert a.providers + [] == a.providers;
      }
    } else {
      var n := |second| - 1;
      AssignInTurn(first, second[..n], nextId, seen);
      assert (first + second)[..|first + second| - 1] == first + second[..n];
      var before := AssignBoth(first, second[..n], nextId, seen);
      if before.Some? {
        var a := Assign(first, nextId, seen).value;
        var b := Assign(second[..n], a.nextId, a.seen).value;
        var r := AssignOne(b, second[n]);
        if r.Some? {
          assert a.providers + r.value.providers == before.value.providers + [r.value.providers[|b.providers|]];
        }
      }
    }
  }

  /** Providers with distinct, unreserved ids are normal already. */
  lemma {:induction false} AssignSettled(providers: seq<Provider>, nextId: int, seen: set<int>)
    requires DistinctIds(providers) && IdsAvoid(providers, seen)
    ensures Assign(AsEntries(providers), nextId, seen) == Some(Allocation(providers, nextId, seen + IdSet(providers)))
  {
    if providers == [] {
      assert seen + IdSet(providers) == seen;
    } else {
      var n := |providers| - 1;
      var front := providers[..n];
      AssignSettled(front, nextId, seen);
      assert AsEntries(providers)[..n] == AsEntries(front);
      InIdSet(front, providers[n].id);
      assert providers[n].id !in IdSet(front);
      assert front + [providers[n]] == providers;
      assert seen + IdSet(front) + {providers[n].id} == seen + IdSet(providers);
    }
  }

  /** Distinct ids of a concatenation, list by list. */
  lemma DistinctSplit(first: seq<Provider>, second: seq<Provider>, ids: set<int>)
    requires DistinctIds(first + second) && IdsAvoid(first + second, ids)
    ensures DistinctIds(first) && IdsAvoid(first, ids) && DistinctIds(second) && IdsAvoid(second, ids + IdSet(first))
  {
    var all := first + second;
    assert forall i :: 0 <= i < |first| ==> all[i] == first[i];
    assert forall i :: 0 <= i < |second| ==> all[|first| + i] == second[i];
    forall i | 0 <= i < |second| ensures second[i].id !in ids + IdSet(first) {
      InIdSet(first, second[i].id);
    }
    forall i, j | 0 <= i < j < |second| ensures second[i].id != second[j].id {
      assert all[|first| + i].id != all[|first| + j].id;
    }
  }

  // ---------------------------------------------------------------- _validate_provider_names

  function CanonicalNames(providers: seq<Provider>): (names: seq<string>)
    ensures |names| == |providers|
    ensures forall i :: 0 <= i < |names| ==> names[i] == Canonical(providers[i].fields)
  {
    seq(|providers|, i requires 0 <= i < |providers| => Canonical(providers[i].fields))
  }

  lemma CanonicalInTurn(first: seq<Provider>, second: seq<Provider>)
    ensures CanonicalNames(first + second) == CanonicalNames(first) + CanonicalNames(second)
  {
  }

  predicate Distinct(names: seq<string>) {
    forall i, j :: 0 <= i < j < |names| ==> names[i] != names[j]
  }

  function Members(names: seq<string>): set<string> {
    set name | name in names
  }

  /** No name is empty, and none is shared with another provider or with those seen. */
  predicate NamesValid(names: seq<string>, seen: set<string>) {
    Distinct(names) && forall i :: 0 <= i < |names| ==> names[i] != "" && names[i] !in seen
  }

  method ValidateProviderNames(providers: seq<Provider>, seen: set<string>) returns (r: Option<set<string>>)
    ensures var names := CanonicalNames(providers);
            r == if NamesValid(names, seen) then Some(seen + Members(names)) else None
  {
    ghost var names := CanonicalNames(providers);
    var taken := seen;
    for k := 0 to |providers|
      invariant NamesValid(names[..k], seen) && taken == seen + Members(names[..k])
    {
      var name := Canonical(providers[k].fields);
      if name == "" || name in taken {
        assert name in names[..k] ==> exists i :: 0 <= i < k && names[i] == names[k];
        return None;
      }
      assert names[..k + 1] == names[..k] + [name];
      taken := taken + {name};
    }
    assert names[..|providers|] == names;
    return Some(taken);
  }

  lemma OneNameValid(name: string, seen: set<string>)
    ensures NamesValid([name], seen) <==> name != "" && name !in seen
  {
    assert [name][0] == name;
  }

  /** Checking two lists in turn, with the same set of seen names, checks their concatenation. */
  lemma NamesValidInTurn(first: seq<string>, second: seq<string>, seen: set<string>)
    ensures NamesValid(first + second, seen) <==>
            NamesValid(first, seen) && NamesValid(second, seen + Members(first))
  {
    var all := first + second;
    assert forall i :: 0 <= i < |first| ==> all[i] == first[i];
    if NamesValid(all, seen) {
      forall i | 0 <= i < |second| ensures second[i] != "" && second[i] !in seen + Members(first) {
        assert all[|first| + i] == second[i];
      }
      forall i, j | 0 <= i < j < |second| ensures second[i] != second[j] {
        assert all[|first| + i] == second[i] && all[|first| + j] == second[j];
      }
    }
  }

  // ---------------------------------------------------------------- names up to case

  /** Names that differ only in case have the same canonical spelling. */
  lemma SameFoldSameCanonical(f: Fields, g: Fields)
    requires Lower(NameOf(f)) == Lower(NameOf(g))
    ensures Canonical(f) == Canonical(g)
  {
    StripLower(NameOf(f));
    StripLower(NameOf(g));
  }

  /** Valid canonical names differ in more than case, and from every reserved name. */
  lemma ValidNamesDiffer(ps: seq<Provider>, reserved: set<string>)
    requires NamesValid(CanonicalNames(ps), reserved)
    ensures NamesDiffer(ps)
  {
    forall i, j | 0 <= i < j < |ps| ensures Lower(NameOf(ps[i].fields)) != Lower(NameOf(ps[j].fields)) {
      if Lower(NameOf(ps[i].fields)) == Lower(NameOf(ps[j].fields)) {
        SameFoldSameCanonical(ps[i].fields, ps[j].fields);
        assert false;
      }
    }
  }

  /** A provider whose canonical name is not reserved does not fold to a reserved name. */
  lemma AvoidsReserved(p: Provider, name: string, reserved: set<string>)
    requires Canonical(p.fields) !in reserved && Lower(name) in reserved && Strip(name) == name
    ensures Lower(NameOf(p.fields)) != Lower(name)
  {
    StripLower(NameOf(p.fields));
    StripLower(name);
  }

  // ---------------------------------------------------------------- get_extras

  function MaxExplicit(start: int, entries: seq<Entry>): (m: int)
    ensures m >= start
  {
    if entries == [] then start
    else
      var m := MaxExplicit(start, entries[..|entries| - 1]);
      var id := entries[|entries| - 1].id;
      if id.Some? && id.value > m then id.value else m
  }

  /** The legacy entries of a list, numbered from the counter on. */
  function Fill(entries: seq<Entry>, start: int): (seq<Provider>, int) {
    if entries == [] then ([], start)
    else
      var (before, n) := Fill(entries[..|entries| - 1], start);
      var last := entries[|entries| - 1];
      if last.id.Some? then (before + [Provider(last.fields, last.id.value)], n)
      else (before + [Provider(last.fields, n + 1)], n + 1)
  }

  /** get_extras: both lists and the counter afterwards. */
  function Extras(newznabs: seq<Entry>, torznabs: seq<Entry>, startId: int): (seq<Provider>, seq<Provider>, int) {
    var m := MaxExplicit(MaxExplicit(startId, newznabs), torznabs);
    var (ns, n) := Fill(newznabs, m);
    var (ts, t) := Fill(torznabs, n);
    (ns, ts, t)
  }

  lemma {:induction false} MaxExplicitBounds(start: int, entries: seq<Entry>)
    ensures ExplicitAtMost(entries, MaxExplicit(start, entries))
  {
    if entries != [] {
      MaxExplicitBounds(start, entries[..|entries| - 1]);
    }
  }

  /** The numbering starts at the counter or at a stored id, whichever is the largest. */
  lemma {:induction false} MaxExplicitIsOne(start: int, entries: seq<Entry>)
    ensures MaxExplicit(start, entries) == start || Stored(entries, MaxExplicit(start, entries))
  {
    if entries != [] {
      MaxExplicitIsOne(start, entries[..|entries| - 1]);
      StoredStep(entries, MaxExplicit(start, entries));
    }
  }

  lemma {:induction false} MaxExplicitInTurn(start: int, first: seq<Entry>, second: seq<Entry>)
    ensures MaxExplicit(start, first + second) == MaxExplicit(MaxExplicit(start, first), second)
    decreases |second|
  {
    if second == [] {
      assert first + second == first;
    } else {
      MaxExplicitInTurn(start, first, second[..|second| - 1]);
      assert (first + second)[..|first + second| - 1] == first + second[..|second| - 1];
    }
  }

  lemma {:induction false} FillInTurn(first: seq<Entry>, second: seq<Entry>, start: int)
    ensures Fill(first + second, start) ==
            (Fill(first, start).0 + Fill(second, Fill(first, start).1).0, Fill(second, Fill(first, start).1).1)
    decreases |second|
  {
    var n := Fill(first, start).1;
    if second == [] {
      assert first + second == first;
      assert Fill(second, n) == ([], n);
      assert Fill(first, start).0 + [] == Fill(first, start).0;
    } else {
      var front := second[..|second| - 1];
      FillInTurn(first, front, start);
      assert (first + second)[..|first + second| - 1] == first + front;
      var last := Fill(second, n).0[|Fill(front, n).0|];
      assert Fill(first, start).0 + Fill(front, n).0 + [last] == Fill(first, start).0 + (Fill(front, n).0 + [last]);
    }
  }

  predicate DistinctFresh(entries: seq<Entry>, providers: seq<Provider>)
    requires |entries| == |providers|
  {
    forall i, j :: 0 <= i < j < |entries| && entries[i].id.None? && entries[j].id.None? ==>
      providers[i].id < providers[j].id
  }

  /** A legacy entry was given this id. */
  predicate GivenOut(entries: seq<Entry>, providers: seq<Provider>, id: int)
    requires |entries| == |providers|
  {
    exists i :: 0 <= i < |entries| && entries[i].id.None? && providers[i].id == id
  }

  lemma {:induction false} Filled(entries: seq<Entry>, start: int)
    ensures var (providers, n) := Fill(entries, start);
            && Completes(providers, entries) && n == start + Legacies(entries)
            && DistinctFresh(entries, providers)
            && forall i :: 0 <= i < |entries| && entries[i].id.None? ==> start < providers[i].id <= n
  {
    if entries != [] {
      var front := entries[..|entries| - 1];
      Filled(front, start);
      var (before, m) := Fill(front, start);
      var (providers, n) := Fill(entries, start);
      assert forall i :: 0 <= i < |front| ==> providers[i] == before[i] && entries[i] == front[i];
    }
  }

  /** The ids given out are consecutive. */
  lemma {:induction false} FilledRange(entries: seq<Entry>, start: int, id: int)
    requires start < id <= start + Legacies(entries)
    ensures |Fill(entries, start).0| == |entries| && GivenOut(entries, Fill(entries, start).0, id)
  {
    Filled(entries, start);
    var front := entries[..|entries| - 1];
    var before := Fill(front, start).0;
    var providers := Fill(entries, start).0;
    Filled(front, start);
    if id <= start + Legacies(front) {
      FilledRange(front, start, id);
      var i :| 0 <= i < |front| && front[i].id.None? && before[i].id == id;
      assert entries[i].id.None? && providers[i].id == id;
    } else {
      assert providers[|front|].id == id;
    }
  }

  /**
   get_extras keeps every stored id; the legacy entries of both lists get different ids above
   every stored one; and the counter ends at or above all of them.
   */
  lemma ExtrasAreNumbered(newznabs: seq<Entry>, torznabs: seq<Entry>, startId: int)
    ensures var (ns, ts, t) := Extras(newznabs, torznabs, startId);
            var all, entries := ns + ts, newznabs + torznabs;
            && Completes(ns, newznabs) && Completes(ts, torznabs)
            && DistinctFresh(entries, all)
            && (forall i, j :: 0 <= i < |all| && 0 <= j < |all| && entries[i].id.Some? && entries[j].id.None? ==>
                  all[i].id < all[j].id)
            && (forall i :: 0 <= i < |all| ==> all[i].id <= t) && t >= startId
  {
    var entries := newznabs + torznabs;
    var m := MaxExplicit(startId, entries);
    MaxExplicitInTurn(startId, newznabs, torznabs);
    MaxExplicitBounds(startId, entries);
    FillInTurn(newznabs, torznabs, m);
    Filled(entries, m);
    Filled(newznabs, m);
    Filled(torznabs, Fill(newznabs, m).1);
  }

  /**
   The ids get_extras hands out are not checked against the reserved ones, so the validation
   that follows it raises exactly when stored ids clash or a reserved id lies in the range the
   legacy entries are numbered with.
   */
  lemma LoadedIdsValid(newznabs: seq<Entry>, torznabs: seq<Entry>, startId: int, reserved: set<int>)
    ensures var (ns, ts, t) := Extras(newznabs, torznabs, startId);
            var entries := newznabs + torznabs;
            var m := MaxExplicit(startId, entries);
            Assign(AsEntries(ns + ts), t, reserved).Some? <==>
              && DistinctExplicit(entries) && ExplicitAvoid(entries, reserved)
              && forall x :: x in reserved ==> !(m < x <= m + Legacies(entries))
  {
    var (ns, ts, t) := Extras(newznabs, torznabs, startId);
    var entries := newznabs + torznabs;
    var m := MaxExplicit(startId, entries);
    MaxExplicitInTurn(startId, newznabs, torznabs);
    MaxExplicitBounds(startId, entries);
    FillInTurn(newznabs, torznabs, m);
    Filled(entries, m);
    var all := Fill(entries, m).0;
    assert all == ns + ts && t == m + Legacies(entries);
    RaisesOnlyForClashes(AsEntries(all), t, reserved);
    FilledDistinct(entries, m, reserved);
  }

  /** The experimental provider's reserved id is handed out to the first legacy entry. */
  lemma ReservedIdIsHandedOut(legacy: Fields)
    ensures var (ns, ts, t) := Extras([Entry(legacy, None)], [], 100);
            ns == [Provider(legacy, 101)] && ts == [] && Assign(AsEntries(ns + ts), t, {101}).None?
  {
    var entries := [Entry(legacy, None)];
    var none: seq<Entry> := [];
    assert entries[..0] == [] && entries[0].id.None?;
    assert MaxExplicit(MaxExplicit(100, entries[..0]), none) == 100;
    assert Fill(entries[..0], 100) == ([], 100) && Fill(none, 101) == ([], 101);
    assert entries + none == entries && Legacies(entries) == 1;
    LoadedIdsValid(entries, none, 100, {101});
  }

  lemma GivenOutIsListed(entries: seq<Entry>, start: int, id: int)
    requires start < id <= start + Legacies(entries)
    ensures Stored(AsEntries(Fill(entries, start).0), id)
  {
    FilledRange(entries, start, id);
    var providers := Fill(entries, start).0;
    var i :| 0 <= i < |entries| && entries[i].id.None? && providers[i].id == id;
    assert AsEntries(providers)[i].id == Some(id);
  }

  lemma FilledDistinct(entries: seq<Entry>, m: int, reserved: set<int>)
    requires ExplicitAtMost(entries, m)
    ensures var all := AsEntries(Fill(entries, m).0);
            && ExplicitAtMost(all, m + Legacies(entries))
            && (DistinctExplicit(all) <==> DistinctExplicit(entries))
            && (ExplicitAvoid(all, reserved) <==>
                  ExplicitAvoid(entries, reserved) && forall x :: x in reserved ==> !(m < x <= m + Legacies(entries)))
  {
    Filled(entries, m);
    var all := AsEntries(Fill(entries, m).0);
    if DistinctExplicit(all) {
      forall i, j | 0 <= i < j < |entries| && entries[i].id.Some? ensures entries[i].id != entries[j].id {
        assert all[i].id != all[j].id;
      }
    }
    if ExplicitAvoid(all, reserved) {
      forall i | 0 <= i < |entries| && entries[i].id.Some? ensures entries[i].id.value !in reserved {
        assert all[i].id == entries[i].id;
      }
      forall x | x in reserved ensures !(m < x <= m + Legacies(entries)) {
        if m < x <= m + Legacies(entries) {
          GivenOutIsListed(entries, m, x);
        }
      }
    }
  }

  // ---------------------------------------------------------------- _absorb_legacy_torznab

  /** The retired single-provider fields, the provider lists and the id counter. */
  datatype Loaded = Loaded(
    name: Option<string>,
    host: Option<string>,
    apikey: Option<string>,
    category: Option<string>,
    verify: bool,
    enabled: bool,
    newznabs: seq<Provider>,
    torznabs: seq<Provider>,
    startId: int,
    writeNeeded: bool)

  predicate NothingLegacy(s: Loaded) {
    s.name.None? && s.host.None? && s.apikey.None? && s.category.None?
  }

  predicate LegacyComplete(s: Loaded) {
    s.name.Some? && s.host.Some? && s.apikey.Some? && s.category.Some?
  }

  /** _scrub removes the legacy options, so that the next write drops them from the file. */
  function Scrubbed(s: Loaded): Loaded {
    s.(name := None, host := None, apikey := None, category := None, writeNeeded := true)
  }

  function LegacyFields(s: Loaded): Fields
    requires LegacyComplete(s)
  {
    Fields(s.name.value, s.host.value, s.verify, s.apikey, s.category.value, s.enabled)
  }

  predicate HostListed(host: string, torznabs: seq<Provider>) {
    exists i :: 0 <= i < |torznabs| && Strip(torznabs[i].fields.host) == Strip(host)
  }

  function Absorb(s: Loaded, reserved: set<int>, reservedNames: set<string>): Loaded {
    if !LegacyComplete(s) then s
    else if HostListed(s.host.value, s.torznabs) then Scrubbed(s)
    else if Lower(Strip(s.name.value)) in Members(CanonicalNames(s.newznabs + s.torznabs)) + reservedNames then s
    else
      var id := FirstFree(s.startId + 1, reserved);
      Scrubbed(s).(torznabs := s.torznabs + [Provider(LegacyFields(s), id)], startId := id)
  }

  predicate CounterCovers(s: Loaded) {
    forall p :: p in s.newznabs + s.torznabs ==> p.id <= s.startId
  }

  /** Some listed provider has this host, up to outer white space. */
  ghost predicate HostTaken(host: string, torznabs: seq<Provider>) {
    exists p :: p in torznabs && Strip(p.fields.host) == Strip(host)
  }

  /** Some listed provider goes by this name, up to case and outer white space, or the name is reserved. */
  ghost predicate NameTaken(name: string, providers: seq<Provider>, reservedNames: set<string>) {
    || Lower(Strip(name)) in reservedNames
    || exists p :: p in providers && Lower(Strip(NameOf(p.fields))) == Lower(Strip(name))
  }

  /** The smallest unreserved number above the counter. */
  ghost predicate NextFree(startId: int, reserved: set<int>, id: int) {
    startId < id && id !in reserved && forall n :: startId < n < id ==> n in reserved
  }

  ghost predicate LegacyGone(t: Loaded) {
    t.name.None? && t.host.None? && t.apikey.None? && t.category.None? && t.writeNeeded
  }

  /**
   The three ways it goes, by the guards alone.  An incomplete entry, or one whose name is taken,
   stays as it is; one whose host is listed is dropped; any other becomes the last Torznab provider,
   field for field, and its options are dropped with it.
   */
  lemma AbsorbedExactly(s: Loaded, reserved: set<int>, reservedNames: set<string>)
    ensures var t := Absorb(s, reserved, reservedNames);
            var complete := s.name.Some? && s.host.Some? && s.apikey.Some? && s.category.Some?;
            && t.newznabs == s.newznabs
            && (!complete ==> t == s)
            && (complete && HostTaken(s.host.value, s.torznabs) ==>
                  LegacyGone(t) && t.torznabs == s.torznabs && t.startId == s.startId)
            && (complete && !HostTaken(s.host.value, s.torznabs) ==>
                  if NameTaken(s.name.value, s.newznabs + s.torznabs, reservedNames) then t == s
                  else LegacyGone(t) && IsAbsorbed(s, t, reserved))
  {
    if LegacyComplete(s) && !HostListed(s.host.value, s.torznabs) {
      NameTakenIs(s.name.value, s.newznabs + s.torznabs, reservedNames);
      FirstFreeIs(s.startId, reserved);
    }
  }

  /** The new provider has the legacy name, host, key, category and switches, and the next free id. */
  ghost predicate IsAbsorbed(s: Loaded, t: Loaded, reserved: set<int>) {
    && |t.torznabs| == |s.torznabs| + 1 && t.torznabs[..|s.torznabs|] == s.torznabs
    && var p := t.torznabs[|s.torznabs|];
       && Some(p.fields.name) == s.name && Some(p.fields.host) == s.host
       && p.fields.credential == s.apikey && Some(p.fields.category) == s.category
       && (p.fields.verify <==> s.verify) && (p.fields.enabled <==> s.enabled)
       && t.startId == p.id && NextFree(s.startId, reserved, p.id)
  }

  lemma NameTakenIs(name: string, providers: seq<Provider>, reservedNames: set<string>)
    ensures Lower(Strip(name)) in Members(CanonicalNames(providers)) + reservedNames <==>
              NameTaken(name, providers, reservedNames)
  {
    var names := CanonicalNames(providers);
    if Lower(Strip(name)) in Members(names) {
      var i :| 0 <= i < |names| && names[i] == Lower(Strip(name));
      assert providers[i] in providers;
    }
    if p :| p in providers && Lower(Strip(NameOf(p.fields))) == Lower(Strip(name)) {
      var i :| 0 <= i < |providers| && providers[i] == p;
      assert names[i] in names;
    }
  }

  lemma FirstFreeIs(startId: int, reserved: set<int>)
    ensures NextFree(startId, reserved, FirstFree(startId + 1, reserved))
  {
    var id := FirstFree(startId + 1, reserved);
    forall n | startId < n < id ensures n in reserved {
      FirstFreeIsFirst(startId + 1, reserved, n);
    }
  }

  /** Absorbing again changes nothing, whichever way the first call went. */
  lemma AbsorbIsIdempotent(s: Loaded, reserved: set<int>, reservedNames: set<string>)
    ensures Absorb(Absorb(s, reserved, reservedNames), reserved, reservedNames) == Absorb(s, reserved, reservedNames)
  {
  }

  /** An absorbed provider has an id that no listed provider has and that is not reserved. */
  lemma AbsorbedIdIsNew(s: Loaded, reserved: set<int>, reservedNames: set<string>)
    requires CounterCovers(s) && DistinctIds(s.newznabs + s.torznabs) && IdsAvoid(s.newznabs + s.torznabs, reserved)
    ensures var t := Absorb(s, reserved, reservedNames);
            && CounterCovers(t) && DistinctIds(t.newznabs + t.torznabs) && IdsAvoid(t.newznabs + t.torznabs, reserved)
  {
    var t := Absorb(s, reserved, reservedNames);
    if t.torznabs != s.torznabs {
      var all := s.newznabs + s.torznabs;
      var added := Provider(LegacyFields(s), t.startId);
      assert t.newznabs + t.torznabs == all + [added];
      assert forall i :: 0 <= i < |all| ==> all[i] in all && all[i].id < added.id;
    }
  }

  /**
   Names stay valid exactly unless the legacy name is blank: a blank name passes the clash test,
   and the provider then goes by its host, or by nothing.
   */
  lemma AbsorbedNameIsValid(s: Loaded, reserved: set<int>, reservedNames: set<string>)
    requires NamesValid(CanonicalNames(s.newznabs + s.torznabs), reservedNames)
    requires Absorb(s, reserved, reservedNames).torznabs != s.torznabs
    ensures var t := Absorb(s, reserved, reservedNames);
            var names := CanonicalNames(s.newznabs + s.torznabs);
            NamesValid(CanonicalNames(t.newznabs + t.torznabs), reservedNames) <==>
              || Lower(Strip(s.name.value)) != ""
              || (s.name.value == "" && Lower(Strip(s.host.value)) != ""
                   && Lower(Strip(s.host.value)) !in Members(names) + reservedNames)
  {
    var t := Absorb(s, reserved, reservedNames);
    var all := s.newznabs + s.torznabs;
    var names := CanonicalNames(all);
    var added := Provider(LegacyFields(s), t.startId);
    assert t.newznabs + t.torznabs == all + [added];
    var c := Canonical(added.fields);
    assert CanonicalNames(all + [added]) == names + [c];
    NamesValidInTurn(names, [c], reservedNames);
    OneNameValid(c, reservedNames + Members(names));
    assert Strip("") == "" && |Lower("")| == 0;
  }

  /** A legacy provider named by a single space is absorbed and leaves the names invalid. */
  lemma BlankNameIsAbsorbed(host: string, key: string, category: string, reserved: set<int>)
    ensures var s := Loaded(Some(" "), Some(host), Some(key), Some(category), true, true, [], [], 0, false);
            var t := Absorb(s, reserved, {});
            && NamesValid(CanonicalNames(s.newznabs + s.torznabs), {})
            && |t.torznabs| == 1 && !NamesValid(CanonicalNames(t.newznabs + t.torznabs), {})
  {
    var s := Loaded(Some(" "), Some(host), Some(key), Some(category), true, true, [], [], 0, false);
    var none: seq<Provider> := [];
    assert Strip(" ") == "" && |Lower("")| == 0;
    assert s.newznabs + s.torznabs == none && CanonicalNames(none) == [];
    AbsorbedNameIsValid(s, reserved, {});
  }

  /** The part of the configuration object that loading works on. */
  class Registry {
    var loaded: Loaded

    constructor (s: Loaded)
      ensures loaded == s
    {
      loaded := s;
    }

    /** get_extras: the first pass raises the counter, the second hands out ids. */
    method GetExtras(newznabs: seq<Entry>, torznabs: seq<Entry>) returns (ns: seq<Provider>, ts: seq<Provider>)
      modifies this
      ensures (ns, ts, loaded.startId) == Extras(newznabs, torznabs, old(loaded.startId))
      ensures loaded == old(loaded).(startId := loaded.startId)
    {
      for cnt := 0 to 2
        invariant loaded == old(loaded).(startId := loaded.startId)
        invariant loaded.startId == match cnt
                                    case 0 => old(loaded.startId)
                                    case 1 => MaxExplicit(old(loaded.startId), newznabs)
                                    case _ => MaxExplicit(MaxExplicit(old(loaded.startId), newznabs), torznabs)
      {
        var entries := if cnt == 0 then newznabs else torznabs;
        ghost var start := loaded.startId;
        for k := 0 to |entries|
          invariant loaded == old(loaded).(startId := MaxExplicit(start, entries[..k]))
        {
          assert entries[..k + 1][..k] == entries[..k];
          if entries[k].id.Some? && entries[k].id.value > loaded.startId {
            loaded := loaded.(startId := entries[k].id.value);
          }
        }
        assert entries[..|entries|] == entries;
      }
      ns := NumberEntries(newznabs);
      ts := NumberEntries(torznabs);
    }

    method NumberEntries(entries: seq<Entry>) returns (providers: seq<Provider>)
      modifies this
      ensures (providers, loaded.startId) == Fill(entries, old(loaded.startId))
      ensures loaded == old(loaded).(startId := loaded.startId)
    {
      providers := [];
      for k := 0 to |entries|
        invariant (providers, loaded.startId) == Fill(entries[..k], old(loaded.startId))
        invariant loaded == old(loaded).(startId := loaded.startId)
      {
        assert entries[..k + 1][..k] == entries[..k];
        if entries[k].id.Some? {
          providers := providers + [Provider(entries[k].fields, entries[k].id.value)];
        } else {
          loaded := loaded.(startId := loaded.startId + 1);
          providers := providers + [Provider(entries[k].fields, loaded.startId)];
        }
      }
      assert entries[..|entries|] == entries;
    }

    method AbsorbLegacyTorznab(reserved: set<int>, reservedNames: set<string>)
      modifies this
      ensures loaded == Absorb(old(loaded), reserved, reservedNames)
    {
      if NothingLegacy(loaded) {
        return;
      }
      if !LegacyComplete(loaded) {
        return;
      }
      if HostListed(loaded.host.value, loaded.torznabs) {
        loaded := Scrubbed(loaded);
        return;
      }
      if Lower(Strip(loaded.name.value)) in Members(CanonicalNames(loaded.newznabs + loaded.torznabs)) + reservedNames {
        return;
      }
      var candidate := loaded.startId + 1;
      while candidate in reserved
        invariant loaded == old(loaded)
        invariant FirstFree(candidate, reserved) == FirstFree(loaded.startId + 1, reserved)
        decreases FirstFree(loaded.startId + 1, reserved) - candidate
      {
        FirstFreeStep(candidate + 1, candidate, reserved);
        candidate := candidate + 1;
      }
      var fields := LegacyFields(loaded);
      loaded := loaded.(startId := candidate, torznabs := loaded.torznabs + [Provider(fields, candidate)]);
      loaded := Scrubbed(loaded);
    }
  }
}
