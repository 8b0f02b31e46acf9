/**
 The provider order (_calculate_provider_order): the enabled providers, arranged by the
 positions they had in the previous order, and the flat text the order is stored as.
 */
module ProviderOrder {
  import opened Options
  import opened Providers
  import opened Text

  // ---------------------------------------------------------------- enabled providers

  function WithoutQuotes(s: string): string {
    if s == "" then "" else (if s[0] == '"' then "" else [s[0]]) + WithoutQuotes(s[1..])
  }

  function ListedName(f: Fields): string {
    var name := NameOf(f);
    if name != "" && name[|name| - 1] == '"' then Strip(WithoutQuotes(name)) else name
  }

  function ListedNames(entries: seq<Provider>): seq<string> {
    if entries == [] then []
    else (if entries[0].fields.enabled then [ListedName(entries[0].fields)] else []) + ListedNames(entries[1..])
  }

  /** The configurable providers that are enabled, in configuration order. */
  function Configured(s: Switches, newznabs: seq<Provider>, torznabs: seq<Provider>): seq<string> {
    (if s.newznab then ListedNames(newznabs) else [])
    + (if s.torznab && s.torrentSearch then ListedNames(torznabs) else [])
    + (if s.prowlarr then ["Prowlarr"] else [])
  }

  const BUILTIN: seq<string> := ["Experimental", "DDL(GetComics)", "DDL(External)"]

  function Builtin(s: Switches): seq<string> {
    (if s.experimental then ["Experimental"] else [])
    + (if s.ddl && s.getcomics then ["DDL(GetComics)"] else [])
    + (if s.ddl && s.external then ["DDL(External)"] else [])
  }

  const TRACKER: string := "32p"

  /** PR: every enabled provider. */
  function Enabled(s: Switches, newznabs: seq<Provider>, torznabs: seq<Provider>): seq<string> {
    (if s.torrentSearch && s.enable32p then [TRACKER] else []) + (Builtin(s) + Configured(s, newznabs, torznabs))
  }

  /** PPR: the names a recomputed order may contain. */
  function Orderable(s: Switches, newznabs: seq<Provider>, torznabs: seq<Provider>): seq<string> {
    BUILTIN + Configured(s, newznabs, torznabs)
  }

  /** The numbered form of an order: "0", first name, "1", second name, ... */
  function Flat(names: seq<string>): seq<string> {
    if names == [] then [] else Flat(names[..|names| - 1]) + [Numeral(|names| - 1), names[|names| - 1]]
  }

  /** zip(*[iter(parts)] * 2): pairs of consecutive parts; an odd last part is dropped. */
  function Pairs(parts: seq<string>): (pairs: seq<(string, string)>)
    ensures |pairs| == |parts| / 2
    ensures forall i :: 0 <= i < |pairs| ==> pairs[i] == (parts[2 * i], parts[2 * i + 1])
  {
    seq(|parts| / 2, i requires 0 <= i < |parts| / 2 => (parts[2 * i], parts[2 * i + 1]))
  }

  lemma {:induction false} FlatParts(names: seq<string>)
    ensures |Flat(names)| == 2 * |names|
    ensures forall i :: 0 <= i < |names| ==> Flat(names)[2 * i] == Numeral(i) && Flat(names)[2 * i + 1] == names[i]
  {
    if names != [] {
      FlatParts(names[..|names| - 1]);
    }
  }

  // ---------------------------------------------------------------- the calculation

  /** An enabled provider on its way into the order; seats number them from the last enabled one. */
  datatype Slot = Slot(order: int, name: string, seat: nat)

  function FindListed(name: string, pairs: seq<(string, string)>): Option<string> {
    if pairs == [] then None
    else if Lower(pairs[0].1) == Lower(name) then Some(pairs[0].0)
    else FindListed(name, pairs[1..])
  }

  /** The previous position of a provider; new ones get the fallback.  None where int() raises. */
  function Position(name: string, pairs: seq<(string, string)>, fallback: nat): Option<int> {
    var listed := FindListed(name, pairs);
    if listed.None? then Some(fallback) else ParseInt(listed.value)
  }

  /** The slots of the first n enabled providers, last one first. */
  function Slots(enabled: seq<string>, orderable: seq<string>, pairs: seq<(string, string)>, n: nat): Option<seq<Slot>>
    requires n <= |enabled|
  {
    if n == 0 then Some([])
    else
      var rest := Slots(enabled, orderable, pairs, n - 1);
      if enabled[n - 1] !in orderable then rest
      else
        var p := Position(enabled[n - 1], pairs, |enabled|);
        if p.None? || rest.None? then None
        else Some([Slot(p.value, enabled[n - 1], |enabled| - n)] + rest.value)
  }

  /** Inserts x behind every slot of the same or a smaller order, as a stable sort does. */
  function Insert(s: seq<Slot>, x: Slot): seq<Slot> {
    if s == [] || s[|s| - 1].order <= x.order then s + [x]
    else Insert(s[..|s| - 1], x) + [s[|s| - 1]]
  }

  function StableSort(s: seq<Slot>): seq<Slot> {
    if s == [] then [] else Insert(StableSort(s[..|s| - 1]), s[|s| - 1])
  }

  function Names(s: seq<Slot>): (names: seq<string>)
    ensures |names| == |s|
    ensures forall i :: 0 <= i < |s| ==> names[i] == s[i].name
  {
    seq(|s|, i requires 0 <= i < |s| => s[i].name)
  }

  /** The new order from the parts of the previous one; None where a position is not a number. */
  function Calculate(enabled: seq<string>, orderable: seq<string>, previous: Option<seq<string>>): Option<seq<string>> {
    if previous.None? then Some(enabled)
    else
      var slots := Slots(enabled, orderable, Pairs(previous.value), |enabled|);
      if slots.None? then None else Some(Names(StableSort(slots.value)))
  }

  method CalculateOrder(enabled: seq<string>, orderable: seq<string>, previous: Option<seq<string>>)
    returns (names: Option<seq<string>>, flat: seq<string>)
    ensures names == Calculate(enabled, orderable, previous)
    ensures flat == if names.Some? then Flat(names.value) else []
  {
    var chosen := enabled;
    if previous.Some? {
      var pairs := Pairs(previous.value);
      var slots: seq<Slot> := [];
      var i := |enabled|;
      assert forall rest: seq<Slot> :: [] + rest == rest;
      while i > 0
        invariant 0 <= i <= |enabled|
        invariant var below := Slots(enabled, orderable, pairs, i);
                  Slots(enabled, orderable, pairs, |enabled|) == if below.None? then None else Some(slots + below.value)
      {
        i := i - 1;
        if enabled[i] in orderable {
          var p := Position(enabled[i], pairs, |enabled|);
          if p.None? {
            return None, [];
          }
          var slot := Slot(p.value, enabled[i], |enabled| - (i + 1));
          assert forall rest: seq<Slot> :: slots + ([slot] + rest) == (slots + [slot]) + rest;
          slots := slots + [slot];
        }
      }
      assert slots + [] == slots;
      chosen := Names(StableSort(slots));
    }
    names := Some(chosen);
    flat := [];
    for k := 0 to |chosen|
      invariant flat == Flat(chosen[..k])
    {
      assert chosen[..k + 1][..k] == chosen[..k];
      flat := flat + [Numeral(k), chosen[k]];
    }
    assert chosen[..|chosen|] == chosen;
  }

  // ---------------------------------------------------------------- what the order keeps

  predicate Before(a: Slot, b: Slot) {
    a.order < b.order || (a.order == b.order && a.seat < b.seat)
  }

  predicate StrictlySorted(s: seq<Slot>) {
    forall i, j :: 0 <= i < j < |s| ==> Before(s[i], s[j])
  }

  lemma {:induction false} InsertSorted(s: seq<Slot>, x: Slot)
    requires StrictlySorted(s) && forall y :: y in s ==> y.seat < x.seat
    ensures StrictlySorted(Insert(s, x)) && multiset(Insert(s, x)) == multiset(s) + multiset{x}
  {
    if s == [] || s[|s| - 1].order <= x.order {
    } else {
      var front, last := s[..|s| - 1], s[|s| - 1];
      assert s == front + [last];
      InsertSorted(front, x);
      forall y | y in Insert(front, x) ensures Before(y, last) {
        assert y in multiset(Insert(front, x));
        if y != x {
          assert y in front;
        }
      }
    }
  }

  predicate SeatsIncrease(s: seq<Slot>) {
    forall i, j :: 0 <= i < j < |s| ==> s[i].seat < s[j].seat
  }

  lemma {:induction false} SortSorted(s: seq<Slot>)
    requires SeatsIncrease(s)
    ensures StrictlySorted(StableSort(s)) && multiset(StableSort(s)) == multiset(s)
  {
    if s != [] {
      var front, last := s[..|s| - 1], s[|s| - 1];
      assert s == front + [last];
      SortSorted(front);
      forall y | y in StableSort(front) ensures y.seat < last.seat {
        assert y in multiset(StableSort(front));
      }
      InsertSorted(StableSort(front), last);
    }
  }

  /** x is the slot of one enabled, orderable provider. */
  predicate IsSlot(x: Slot, enabled: seq<string>, orderable: seq<string>, pairs: seq<(string, string)>) {
    && x.seat < |enabled| && x.name == enabled[|enabled| - 1 - x.seat] && x.name in orderable
    && Position(x.name, pairs, |enabled|) == Some(x.order)
  }

  function SlotOf(enabled: seq<string>, pairs: seq<(string, string)>, i: nat): Slot
    requires i < |enabled|
  {
    Slot(Position(enabled[i], pairs, |enabled|).GetOr(0), enabled[i], |enabled| - 1 - i)
  }

  /** What the slots of the first n providers are. */
  lemma {:induction false} SlotsAre(enabled: seq<string>, orderable: seq<string>, pairs: seq<(string, string)>, n: nat)
    requires n <= |enabled| && Slots(enabled, orderable, pairs, n).Some?
    ensures var s := Slots(enabled, orderable, pairs, n).value;
            && SeatsIncrease(s)
            && (forall x :: x in s ==> IsSlot(x, enabled, orderable, pairs) && x.seat >= |enabled| - n)
            && (forall i :: 0 <= i < n && enabled[i] in orderable ==> SlotOf(enabled, pairs, i) in s)
  {
    if n > 0 {
      SlotsAre(enabled, orderable, pairs, n - 1);
      var s, rest := Slots(enabled, orderable, pairs, n).value, Slots(enabled, orderable, pairs, n - 1).value;
      if enabled[n - 1] in orderable {
        var slot := SlotOf(enabled, pairs, n - 1);
        assert s == [slot] + rest && IsSlot(slot, enabled, orderable, pairs);
        assert forall x :: x in s <==> x == slot || x in rest;
      } else {
        assert s == rest;
      }
    }
  }

  lemma {:induction false} InsertNames(s: seq<Slot>, x: Slot)
    ensures multiset(Names(Insert(s, x))) == multiset(Names(s)) + multiset{x.name}
  {
    if s == [] || s[|s| - 1].order <= x.order {
      assert Names(s + [x]) == Names(s) + [x.name];
    } else {
      var front, last := s[..|s| - 1], s[|s| - 1];
      InsertNames(front, x);
      assert Names(Insert(front, x) + [last]) == Names(Insert(front, x)) + [last.name];
      assert Names(s) == Names(front) + [last.name];
    }
  }

  lemma {:induction false} SortNames(s: seq<Slot>)
    ensures multiset(Names(StableSort(s))) == multiset(Names(s))
  {
    if s != [] {
      var front, last := s[..|s| - 1], s[|s| - 1];
      SortNames(front);
      InsertNames(StableSort(front), last);
      assert Names(s) == Names(front) + [last.name];
    }
  }

  /** The enabled providers that are orderable. */
  function Keep(enabled: seq<string>, orderable: seq<string>): seq<string> {
    if enabled == [] then []
    else Keep(enabled[..|enabled| - 1], orderable)
         + (if enabled[|enabled| - 1] in orderable then [enabled[|enabled| - 1]] else [])
  }

  lemma KeepLast(enabled: seq<string>, orderable: seq<string>, n: nat)
    requires 0 < n <= |enabled|
    ensures multiset(Keep(enabled[..n], orderable)) == multiset(Keep(enabled[..n - 1], orderable))
              + (if enabled[n - 1] in orderable then multiset{enabled[n - 1]} else multiset{})
  {
    assert enabled[..n][..n - 1] == enabled[..n - 1];
  }

  lemma FirstSlotName(s: seq<Slot>)
    requires s != []
    ensures multiset(Names(s)) == multiset{s[0].name} + multiset(Names(s[1..]))
  {
    assert Names(s) == [s[0].name] + Names(s[1..]);
  }

  lemma {:induction false} SlotNames(enabled: seq<string>, orderable: seq<string>, pairs: seq<(string, string)>, n: nat)
    requires n <= |enabled| && Slots(enabled, orderable, pairs, n).Some?
    ensures multiset(Names(Slots(enabled, orderable, pairs, n).value)) == multiset(Keep(enabled[..n], orderable))
  {
    if n > 0 {
      SlotNames(enabled, orderable, pairs, n - 1);
      KeepLast(enabled, orderable, n);
      if enabled[n - 1] in orderable {
        FirstSlotName(Slots(enabled, orderable, pairs, n).value);
      }
    }
  }

  /** A recomputed order is a permutation of the enabled providers that are orderable. */
  lemma OrderIsPermutation(enabled: seq<string>, orderable: seq<string>, parts: seq<string>)
    requires Calculate(enabled, orderable, Some(parts)).Some?
    ensures multiset(Calculate(enabled, orderable, Some(parts)).value) == multiset(Keep(enabled, orderable))
  {
    var n := |enabled|;
    SortNames(Slots(enabled, orderable, Pairs(parts), n).value);
    SlotNames(enabled, orderable, Pairs(parts), n);
    assert enabled[..n] == enabled;
  }

  lemma {:induction false} KeepAll(enabled: seq<string>, orderable: seq<string>)
    requires forall i :: 0 <= i < |enabled| ==> enabled[i] in orderable
    ensures Keep(enabled, orderable) == enabled
  {
    if enabled != [] {
      KeepAll(enabled[..|enabled| - 1], orderable);
    }
  }

  lemma {:induction false} KeepWithout(first: string, enabled: seq<string>, orderable: seq<string>)
    requires first !in orderable
    ensures Keep([first] + enabled, orderable) == Keep(enabled, orderable)
  {
    var all := [first] + enabled;
    if enabled == [] {
      assert all[..0] == [];
    } else {
      KeepWithout(first, enabled[..|enabled| - 1], orderable);
      assert all[..|all| - 1] == [first] + enabled[..|enabled| - 1];
    }
  }

  lemma KeepDropsFirst(first: string, builtin: seq<string>, configured: seq<string>, base: seq<string>)
    requires first !in base && first !in configured
    requires forall i :: 0 <= i < |builtin| ==> builtin[i] in base
    ensures Keep([first] + (builtin + configured), base + configured) == builtin + configured
    ensures Keep(builtin + configured, base + configured) == builtin + configured
  {
    var rest, orderable := builtin + configured, base + configured;
    forall i | 0 <= i < |rest| ensures rest[i] in orderable {
      if i < |builtin| {
        assert rest[i] == builtin[i];
      } else {
        assert rest[i] == configured[i - |builtin|];
      }
    }
    KeepAll(rest, orderable);
    KeepWithout(first, rest, orderable);
  }

  lemma BuiltinOrderable(s: Switches)
    ensures forall i :: 0 <= i < |Builtin(s)| ==> Builtin(s)[i] in BUILTIN
  {
    assert BUILTIN[0] in BUILTIN && BUILTIN[1] in BUILTIN && BUILTIN[2] in BUILTIN;
  }

  lemma TrackerNotOrderable()
    ensures TRACKER !in BUILTIN
  {
    assert |TRACKER| == 3 && forall name :: name in BUILTIN ==> |name| > 3;
  }

  /** A recomputed order drops 32p and nothing else, although a first order lists 32p. */
  lemma OnlyTracker32pIsDropped(s: Switches, newznabs: seq<Provider>, torznabs: seq<Provider>)
    requires TRACKER !in Configured(s, newznabs, torznabs)
    ensures Keep(Enabled(s, newznabs, torznabs), Orderable(s, newznabs, torznabs))
         == Builtin(s) + Configured(s, newznabs, torznabs)
  {
    var rest := Builtin(s) + Configured(s, newznabs, torznabs);
    BuiltinOrderable(s);
    TrackerNotOrderable();
    KeepDropsFirst(TRACKER, Builtin(s), Configured(s, newznabs, torznabs), BUILTIN);
    assert Enabled(s, newznabs, torznabs) == if s.torrentSearch && s.enable32p then [TRACKER] + rest else rest;
  }

  lemma {:induction false} KeepSize(enabled: seq<string>, orderable: seq<string>, name: string)
    requires name in enabled && name !in orderable
    ensures |Keep(enabled, orderable)| < |enabled|
  {
    var front := enabled[..|enabled| - 1];
    KeepAtMost(front, orderable);
    if name in front {
      KeepSize(front, orderable, name);
    }
  }

  lemma {:induction false} KeepAtMost(enabled: seq<string>, orderable: seq<string>)
    ensures |Keep(enabled, orderable)| <= |enabled|
  {
    if enabled != [] {
      KeepAtMost(enabled[..|enabled| - 1], orderable);
    }
  }

  /**
   So a recomputed order is a permutation of all enabled providers, whatever the previous one,
   exactly if 32p is off, or a configured provider goes by its name.
   */
  lemma RecomputedOrderIsComplete(s: Switches, newznabs: seq<Provider>, torznabs: seq<Provider>, parts: seq<string>)
    requires Calculate(Enabled(s, newznabs, torznabs), Orderable(s, newznabs, torznabs), Some(parts)).Some?
    ensures var enabled := Enabled(s, newznabs, torznabs);
            multiset(Calculate(enabled, Orderable(s, newznabs, torznabs), Some(parts)).value) == multiset(enabled) <==>
              !(s.torrentSearch && s.enable32p) || TRACKER in Configured(s, newznabs, torznabs)
  {
    var enabled, orderable := Enabled(s, newznabs, torznabs), Orderable(s, newznabs, torznabs);
    var configured := Configured(s, newznabs, torznabs);
    var r := Calculate(enabled, orderable, Some(parts)).value;
    OrderIsPermutation(enabled, orderable, parts);
    if (s.torrentSearch && s.enable32p) && TRACKER !in configured {
      TrackerNotOrderable();
      assert enabled[0] == TRACKER;
      KeepSize(enabled, orderable, TRACKER);
      assert |multiset(r)| == |Keep(enabled, orderable)| && |multiset(enabled)| == |enabled|;
    } else {
      BuiltinOrderable(s);
      forall i | 0 <= i < |enabled| ensures enabled[i] in orderable {
        EnabledCases(s, newznabs, torznabs, enabled[i]);
      }
      KeepAll(enabled, orderable);
    }
  }

  lemma EnabledCases(s: Switches, newznabs: seq<Provider>, torznabs: seq<Provider>, name: string)
    requires name in Enabled(s, newznabs, torznabs)
    ensures || (name == TRACKER && s.torrentSearch && s.enable32p)
            || name in Builtin(s) || name in Configured(s, newznabs, torznabs)
  {
  }

  predicate Distinct(names: seq<string>) {
    forall i, j :: 0 <= i < j < |names| ==> names[i] != names[j]
  }

  /** The sorted slots behind a recomputed order. */
  lemma SortedSlots(enabled: seq<string>, orderable: seq<string>, parts: seq<string>) returns (s: seq<Slot>)
    requires Calculate(enabled, orderable, Some(parts)).Some?
    ensures StrictlySorted(s) && Names(s) == Calculate(enabled, orderable, Some(parts)).value
    ensures forall k :: 0 <= k < |s| ==> IsSlot(s[k], enabled, orderable, Pairs(parts))
    ensures forall i :: 0 <= i < |enabled| && enabled[i] in orderable ==> SlotOf(enabled, Pairs(parts), i) in s
  {
    var slots := Slots(enabled, orderable, Pairs(parts), |enabled|).value;
    s := StableSort(slots);
    SlotsAre(enabled, orderable, Pairs(parts), |enabled|);
    SortSorted(slots);
    forall k | 0 <= k < |s| ensures s[k] in slots {
      assert s[k] in multiset(s);
    }
    forall i | 0 <= i < |enabled| && enabled[i] in orderable ensures SlotOf(enabled, Pairs(parts), i) in s {
      assert SlotOf(enabled, Pairs(parts), i) in multiset(slots);
    }
  }

  /** The position an enabled provider is sorted by. */
  function Rank(enabled: seq<string>, parts: seq<string>, i: nat): int
    requires i < |enabled|
  {
    Position(enabled[i], Pairs(parts), |enabled|).GetOr(0)
  }

  predicate RankedBefore(enabled: seq<string>, parts: seq<string>, i: nat, j: nat)
    requires i < |enabled| && j < |enabled|
  {
    Rank(enabled, parts, i) < Rank(enabled, parts, j) || (Rank(enabled, parts, i) == Rank(enabled, parts, j) && i > j)
  }

  /**
   The whole arrangement: of two enabled providers the one with the smaller previous position
   comes first, and of two with the same position the one enabled later.
   */
  lemma ArrangedByPosition(enabled: seq<string>, orderable: seq<string>, parts: seq<string>, x: nat, y: nat, i: nat,
                           j: nat)
    requires Calculate(enabled, orderable, Some(parts)).Some? && Distinct(enabled)
    requires x < |Calculate(enabled, orderable, Some(parts)).value|
             && y < |Calculate(enabled, orderable, Some(parts)).value|
    requires i < |enabled| && j < |enabled| && i != j
    requires Calculate(enabled, orderable, Some(parts)).value[x] == enabled[i]
    requires Calculate(enabled, orderable, Some(parts)).value[y] == enabled[j]
    ensures x < y <==> RankedBefore(enabled, parts, i, j)
  {
    var s := SortedSlots(enabled, orderable, parts);
    assert IsSlot(s[x], enabled, orderable, Pairs(parts)) && IsSlot(s[y], enabled, orderable, Pairs(parts));
    assert s[x].seat == |enabled| - 1 - i && s[y].seat == |enabled| - 1 - j;
    if x < y {
      assert Before(s[x], s[y]);
    } else {
      assert x != y;
      assert Before(s[y], s[x]);
    }
  }

  predicate WasListed(name: string, parts: seq<string>) {
    FindListed(name, Pairs(parts)).Some?
  }

  /** Where an orderable enabled provider ends up. */
  lemma PlaceOf(enabled: seq<string>, orderable: seq<string>, parts: seq<string>, i: nat) returns (x: nat)
    requires Calculate(enabled, orderable, Some(parts)).Some? && i < |enabled| && enabled[i] in orderable
    ensures x < |Calculate(enabled, orderable, Some(parts)).value|
            && Calculate(enabled, orderable, Some(parts)).value[x] == enabled[i]
  {
    var s := SortedSlots(enabled, orderable, parts);
    x :| 0 <= x < |s| && s[x] == SlotOf(enabled, Pairs(parts), i);
  }

  /** Provider i, already listed, and provider j, new, end up in the wrong order. */
  predicate Overtakes(enabled: seq<string>, orderable: seq<string>, parts: seq<string>, i: nat, j: nat)
    requires i < |enabled| && j < |enabled|
  {
    && enabled[i] in orderable && enabled[j] in orderable
    && WasListed(enabled[i], parts) && !WasListed(enabled[j], parts)
    && (Rank(enabled, parts, i) > |enabled| || (Rank(enabled, parts, i) == |enabled| && i < j))
  }

  /** New providers land after all kept ones exactly unless a kept position reaches the enabled count. */
  lemma NewProvidersComeLast(enabled: seq<string>, orderable: seq<string>, parts: seq<string>)
    requires Calculate(enabled, orderable, Some(parts)).Some? && Distinct(enabled)
    ensures var r := Calculate(enabled, orderable, Some(parts)).value;
            (forall x, y :: 0 <= x < |r| && 0 <= y < |r| && WasListed(r[x], parts) && !WasListed(r[y], parts) ==> x < y)
            <==> forall i, j :: 0 <= i < |enabled| && 0 <= j < |enabled| ==>
                   !Overtakes(enabled, orderable, parts, i, j)
  {
    var r := Calculate(enabled, orderable, Some(parts)).value;
    var s := SortedSlots(enabled, orderable, parts);
    forall x, y | 0 <= x < |r| && 0 <= y < |r| && WasListed(r[x], parts) && !WasListed(r[y], parts)
      ensures x < y
           || exists i, j :: 0 <= i < |enabled| && 0 <= j < |enabled| && Overtakes(enabled, orderable, parts, i, j)
    {
      assert IsSlot(s[x], enabled, orderable, Pairs(parts)) && IsSlot(s[y], enabled, orderable, Pairs(parts));
      var i, j := |enabled| - 1 - s[x].seat, |enabled| - 1 - s[y].seat;
      ArrangedByPosition(enabled, orderable, parts, x, y, i, j);
      assert x < y || Overtakes(enabled, orderable, parts, i, j);
    }
    forall i, j | 0 <= i < |enabled| && 0 <= j < |enabled| && Overtakes(enabled, orderable, parts, i, j)
      ensures exists x, y :: 0 <= x < |r| && 0 <= y < |r| && WasListed(r[x], parts) && !WasListed(r[y], parts) && x >= y
    {
      var x := PlaceOf(enabled, orderable, parts, i);
      var y := PlaceOf(enabled, orderable, parts, j);
      ArrangedByPosition(enabled, orderable, parts, x, y, i, j);
    }
  }

  // ---------------------------------------------------------------- stability

  predicate DistinctFolded(names: seq<string>) {
    forall i, j :: 0 <= i < j < |names| ==> Lower(names[i]) != Lower(names[j])
  }

  lemma {:induction false} FindFrom(names: seq<string>, pairs: seq<(string, string)>, base: nat, k: nat)
    requires DistinctFolded(names) && base + |pairs| == |names| && base <= k < |names|
    requires forall i :: 0 <= i < |pairs| ==> pairs[i] == (Numeral(base + i), names[base + i])
    ensures FindListed(names[k], pairs) == Some(Numeral(k))
    decreases |pairs|
  {
    if k > base {
      assert Lower(pairs[0].1) == Lower(names[base]) != Lower(names[k]);
      FindFrom(names, pairs[1..], base + 1, k);
    }
  }

  lemma FlatPairs(names: seq<string>)
    ensures |Pairs(Flat(names))| == |names|
    ensures forall i :: 0 <= i < |names| ==> Pairs(Flat(names))[i] == (Numeral(i), names[i])
  {
    FlatParts(names);
  }

  /** A name's position in a flat order is its index. */
  lemma FlatPosition(names: seq<string>, k: nat, fallback: nat)
    requires DistinctFolded(names) && k < |names|
    ensures Position(names[k], Pairs(Flat(names)), fallback) == Some(k)
  {
    FlatPairs(names);
    FindFrom(names, Pairs(Flat(names)), 0, k);
    NumeralIsInt(k);
  }

  predicate Increasing(a: seq<int>) {
    forall i, j :: 0 <= i < j < |a| ==> a[i] < a[j]
  }

  lemma IncreasingRest(a: seq<int>, x: int)
    requires a != [] && Increasing(a)
    ensures x in a ==> a[0] <= x
    ensures x in a[1..] <==> x in a && x != a[0]
  {
    if x in a {
      var i :| 0 <= i < |a| && a[i] == x;
      assert i > 0 ==> a[1..][i - 1] == x;
    }
  }

  /** Strictly increasing sequences of the same numbers are equal. */
  lemma {:induction false} IncreasingUnique(a: seq<int>, b: seq<int>)
    requires Increasing(a) && Increasing(b)
    requires forall x :: x in a <==> x in b
    ensures a == b
  {
    if a != [] {
      assert a[0] in a && a[0] in b;
    }
    if b != [] {
      assert b[0] in b && b[0] in a;
      IncreasingRest(a, b[0]);
      IncreasingRest(b, a[0]);
      forall x ensures x in a[1..] <==> x in b[1..] {
        IncreasingRest(a, x);
        IncreasingRest(b, x);
      }
      IncreasingUnique(a[1..], b[1..]);
      assert a == [a[0]] + a[1..] && b == [b[0]] + b[1..];
    }
  }

  /** The indices of the names of an order that are still wanted. */
  function StillWanted(order: seq<string>, enabled: seq<string>, orderable: seq<string>, n: nat): seq<nat>
    requires n <= |order|
  {
    if n == 0 then []
    else StillWanted(order, enabled, orderable, n - 1)
         + (if order[n - 1] in enabled && order[n - 1] in orderable then [n - 1] else [])
  }

  /** An order restricted to the providers that are enabled and orderable. */
  function Restrict(order: seq<string>, enabled: seq<string>, orderable: seq<string>): seq<string> {
    var wanted := StillWanted(order, enabled, orderable, |order|);
    seq(|wanted|, i requires 0 <= i < |wanted| => if wanted[i] < |order| then order[wanted[i]] else "")
  }

  lemma {:induction false} StillWantedIs(order: seq<string>, enabled: seq<string>, orderable: seq<string>, n: nat)
    requires n <= |order|
    ensures var w := StillWanted(order, enabled, orderable, n);
            && Increasing(w)
            && (forall k: nat :: k in w <==> k < n && k < |order| && order[k] in enabled && order[k] in orderable)
  {
    if n > 0 {
      StillWantedIs(order, enabled, orderable, n - 1);
      var w := StillWanted(order, enabled, orderable, n - 1);
      forall i | 0 <= i < |w| ensures w[i] < n - 1 {
        assert w[i] in w;
      }
    }
  }

  function Orders(s: seq<Slot>): (o: seq<int>)
    ensures |o| == |s| && forall i :: 0 <= i < |s| ==> o[i] == s[i].order
  {
    seq(|s|, i requires 0 <= i < |s| => s[i].order)
  }

  lemma {:induction false} SlotsDefined(enabled: seq<string>, orderable: seq<string>, pairs: seq<(string, string)>,
                                        n: nat)
    requires n <= |enabled|
    requires forall i :: 0 <= i < n && enabled[i] in orderable ==> Position(enabled[i], pairs, |enabled|).Some?
    ensures Slots(enabled, orderable, pairs, n).Some?
  {
    if n > 0 {
      SlotsDefined(enabled, orderable, pairs, n - 1);
    }
  }

  /** Every slot of a recomputation from a flat order is sorted by its index in that order. */
  lemma SortedByIndex(order: seq<string>, enabled: seq<string>, orderable: seq<string>) returns (s: seq<Slot>)
    requires DistinctFolded(order) && Distinct(enabled)
    requires forall name :: name in enabled && name in orderable ==> name in order
    ensures Calculate(enabled, orderable, Some(Flat(order))) == Some(Names(s))
    ensures Increasing(Orders(s))
    ensures forall i :: 0 <= i < |s| ==>
              0 <= s[i].order < |order| && order[s[i].order] == s[i].name && s[i].name in enabled
                && s[i].name in orderable
    ensures forall i :: 0 <= i < |enabled| && enabled[i] in orderable ==>
              exists x :: 0 <= x < |s| && s[x].name == enabled[i]
  {
    var parts := Flat(order);
    forall k | 0 <= k < |order| ensures Position(order[k], Pairs(parts), |enabled|) == Some(k) {
      FlatPosition(order, k, |enabled|);
    }
    SlotsDefined(enabled, orderable, Pairs(parts), |enabled|);
    s := SortedSlots(enabled, orderable, parts);
    forall i | 0 <= i < |s|
      ensures 0 <= s[i].order < |order| && order[s[i].order] == s[i].name && s[i].name in enabled
              && s[i].name in orderable
    {
      assert IsSlot(s[i], enabled, orderable, Pairs(parts));
      var k :| 0 <= k < |order| && order[k] == s[i].name;
    }
    forall i, j | 0 <= i < j < |s| ensures s[i].order < s[j].order {
      assert Before(s[i], s[j]);
      assert IsSlot(s[i], enabled, orderable, Pairs(parts)) && IsSlot(s[j], enabled, orderable, Pairs(parts));
    }
    forall i | 0 <= i < |enabled| && enabled[i] in orderable
      ensures exists x :: 0 <= x < |s| && s[x].name == enabled[i]
    {
      var x :| 0 <= x < |s| && s[x] == SlotOf(enabled, Pairs(parts), i);
    }
  }

  /**
   Recomputing an order that already lists every provider restricts it to the enabled ones: no
   provider moves.  With nothing disabled this is idempotence.
   */
  lemma RecomputingRestricts(order: seq<string>, enabled: seq<string>, orderable: seq<string>)
    requires DistinctFolded(order) && Distinct(enabled)
    requires forall name :: name in enabled && name in orderable ==> name in order
    ensures Calculate(enabled, orderable, Some(Flat(order))) == Some(Restrict(order, enabled, orderable))
  {
    var s := SortedByIndex(order, enabled, orderable);
    var wanted := StillWanted(order, enabled, orderable, |order|);
    StillWantedIs(order, enabled, orderable, |order|);
    forall k: int ensures k in Orders(s) <==> k in wanted {
      if k in wanted {
        var i :| 0 <= i < |enabled| && enabled[i] == order[k];
        var x :| 0 <= x < |s| && s[x].name == enabled[i];
        SameIndex(order, s[x].order, k);
        assert Orders(s)[x] == k;
      }
    }
    IncreasingUnique(Orders(s), wanted);
    assert Names(s) == Restrict(order, enabled, orderable);
  }

  lemma SameIndex(order: seq<string>, i: nat, j: nat)
    requires DistinctFolded(order) && i < |order| && j < |order| && order[i] == order[j]
    ensures i == j
  {
    if i < j {} else if j < i {}
  }

  lemma {:induction false} RestrictAll(order: seq<string>, enabled: seq<string>, orderable: seq<string>, n: nat)
    requires n <= |order| && forall name :: name in order ==> name in enabled && name in orderable
    ensures StillWanted(order, enabled, orderable, n) == seq(n, i => i)
  {
    if n > 0 {
      RestrictAll(order, enabled, orderable, n - 1);
    }
  }

  lemma {:induction false} KeepMembers(enabled: seq<string>, orderable: seq<string>, name: string)
    ensures name in Keep(enabled, orderable) <==> name in enabled && name in orderable
  {
    if enabled != [] {
      KeepMembers(enabled[..|enabled| - 1], orderable, name);
      assert name in enabled <==> name in enabled[..|enabled| - 1] || name == enabled[|enabled| - 1];
    }
  }

  /** Recomputing is idempotent: whatever the previous order, the new one is recomputed to itself. */
  lemma RecomputingIsIdempotent(enabled: seq<string>, orderable: seq<string>, parts: seq<string>)
    requires Calculate(enabled, orderable, Some(parts)).Some? && Distinct(enabled)
    requires DistinctFolded(Calculate(enabled, orderable, Some(parts)).value)
    ensures var r := Calculate(enabled, orderable, Some(parts)).value;
            Calculate(enabled, orderable, Some(Flat(r))) == Some(r)
  {
    var r := Calculate(enabled, orderable, Some(parts)).value;
    OrderIsPermutation(enabled, orderable, parts);
    forall name ensures name in r <==> name in enabled && name in orderable {
      KeepMembers(enabled, orderable, name);
      assert name in r <==> name in multiset(r);
      assert name in Keep(enabled, orderable) <==> name in multiset(Keep(enabled, orderable));
    }
    RecomputingRestricts(r, enabled, orderable);
    RestrictAll(r, enabled, orderable, |r|);
    assert Restrict(r, enabled, orderable) == r;
  }

  lemma {:induction false} NotListed(name: string, pairs: seq<(string, string)>)
    requires forall i :: 0 <= i < |pairs| ==> Lower(pairs[i].1) != Lower(name)
    ensures FindListed(name, pairs).None?
  {
    if pairs != [] {
      NotListed(name, pairs[1..]);
    }
  }

  lemma TwoSlots(c: string, d: string, pairs: seq<(string, string)>)
    requires Position(c, pairs, 2) == Some(2) && Position(d, pairs, 2) == Some(2)
    ensures Slots([c, d], [c, d], pairs, 2) == Some([Slot(2, d, 0), Slot(2, c, 1)])
  {
    var enabled := [c, d];
    assert enabled[0] == c && enabled[1] == d;
    assert Slots(enabled, enabled, pairs, 0) == Some([]);
    assert [Slot(2, c, 1)] + [] == [Slot(2, c, 1)];
    assert Slots(enabled, enabled, pairs, 1) == Some([Slot(2, c, 1)]);
    assert [Slot(2, d, 0)] + [Slot(2, c, 1)] == [Slot(2, d, 0), Slot(2, c, 1)];
  }

  lemma SortTwo(x: Slot, y: Slot)
    requires x.order <= y.order
    ensures StableSort([x, y]) == [x, y]
  {
    assert [x, y][..1] == [x] && [x][..0] == [];
    assert StableSort([x][..0]) == [] && StableSort([x]) == [x];
  }

  /** Of the old order a, b, c only c stays enabled, and d is new: d comes before c. */
  lemma NewProviderOvertakes(a: string, b: string, c: string, d: string)
    requires DistinctFolded([a, b, c, d])
    ensures Overtakes([c, d], [c, d], Flat([a, b, c]), 0, 1)
    ensures Calculate([c, d], [c, d], Some(Flat([a, b, c]))) == Some([d, c])
  {
    var names, all := [a, b, c], [a, b, c, d];
    var pairs := Pairs(Flat(names));
    assert forall i :: 0 <= i < 3 ==> names[i] == all[i];
    FlatPairs(names);
    FlatPosition(names, 2, 2);
    assert names[2] == c && all[3] == d;
    forall i | 0 <= i < |pairs| ensures Lower(pairs[i].1) != Lower(d) {
      assert Lower(all[i]) != Lower(all[3]);
    }
    NotListed(d, pairs);
    FindFrom(names, pairs, 0, 2);
    TwoSlots(c, d, pairs);
    SortTwo(Slot(2, d, 0), Slot(2, c, 1));
    assert Names([Slot(2, d, 0), Slot(2, c, 1)]) == [d, c];
  }

  /** An order survives being stored as text when no name contains the delimiter. */
  lemma StoredOrderRoundTrip(names: seq<string>)
    requires names != [] && forall n :: n in names ==> !Contains(n, DELIMITER)
    ensures Split(Join(Flat(names))) == Flat(names)
  {
    FlatParts(names);
    forall p | p in Flat(names) ensures !Contains(p, DELIMITER) {
      var k :| 0 <= k < |Flat(names)| && Flat(names)[k] == p;
      assert k == 2 * (k / 2) || k == 2 * (k / 2) + 1;
      NoDelimiterInNumeral(k / 2);
    }
    SplitJoin(Flat(names));
  }

  /** Recalculating from the stored text with the same enabled providers gives the stored order back. */
  lemma StoredOrderIsStable(order: seq<string>, enabled: seq<string>, orderable: seq<string>)
    requires order != [] && DistinctFolded(order) && Distinct(enabled)
    requires forall name :: name in enabled && name in orderable <==> name in order
    requires forall n :: n in order ==> !Contains(n, DELIMITER)
    ensures Calculate(enabled, orderable, Some(Split(Join(Flat(order))))) == Some(order)
  {
    StoredOrderRoundTrip(order);
    RecomputingRestricts(order, enabled, orderable);
    RestrictAll(order, enabled, orderable, |order|);
    assert Restrict(order, enabled, orderable) == order;
  }

  // ---------------------------------------------------------------- what a previous order says

  /** The parts of an order are positions and names in turn. */
  function NameAt(parts: seq<string>, k: nat): string
    requires 2 * k + 1 < |parts|
  {
    parts[2 * k + 1]
  }

  /** Entry k is the first of the previous order with the given name, ignoring case. */
  predicate FirstListed(name: string, parts: seq<string>, k: nat) {
    && 2 * k + 1 < |parts| && Lower(NameAt(parts, k)) == Lower(name)
    && forall j :: 0 <= j < k ==> Lower(NameAt(parts, j)) != Lower(name)
  }

  ghost predicate NotInOrder(name: string, parts: seq<string>) {
    forall j: nat :: 2 * j + 1 < |parts| ==> Lower(NameAt(parts, j)) != Lower(name)
  }

  lemma {:induction false} ListedAt(name: string, pairs: seq<(string, string)>, k: nat)
    requires k < |pairs| && Lower(pairs[k].1) == Lower(name)
    requires forall j :: 0 <= j < k ==> Lower(pairs[j].1) != Lower(name)
    ensures FindListed(name, pairs) == Some(pairs[k].0)
  {
    if k > 0 {
      assert Lower(pairs[0].1) != Lower(name);
      ListedAt(name, pairs[1..], k - 1);
    }
  }

  /** The position of a provider is the number before its first mention; a new one gets the given number. */
  lemma PositionIs(name: string, parts: seq<string>, fallback: nat)
    ensures forall k: nat :: FirstListed(name, parts, k) ==>
              Position(name, Pairs(parts), fallback) == ParseInt(parts[2 * k])
    ensures NotInOrder(name, parts) ==> Position(name, Pairs(parts), fallback) == Some(fallback)
  {
    forall k: nat | FirstListed(name, parts, k)
      ensures Position(name, Pairs(parts), fallback) == ParseInt(parts[2 * k])
    {
      forall j | 0 <= j < k ensures Lower(Pairs(parts)[j].1) != Lower(name) {
        assert Lower(NameAt(parts, j)) != Lower(name);
      }
      ListedAt(name, Pairs(parts), k);
    }
    if NotInOrder(name, parts) {
      forall j | 0 <= j < |Pairs(parts)| ensures Lower(Pairs(parts)[j].1) != Lower(name) {
        assert Lower(NameAt(parts, j)) != Lower(name);
      }
      NotListed(name, Pairs(parts));
    }
  }

  lemma {:induction false} SlotsRaise(enabled: seq<string>, orderable: seq<string>, pairs: seq<(string, string)>,
                                      n: nat)
    requires n <= |enabled|
    ensures Slots(enabled, orderable, pairs, n).Some? <==>
              forall i :: 0 <= i < n && enabled[i] in orderable ==> Position(enabled[i], pairs, |enabled|).Some?
  {
    if n > 0 {
      SlotsRaise(enabled, orderable, pairs, n - 1);
    }
  }

  /** The number before the first mention of a provider, if there is one, is not a number. */
  predicate BadPosition(name: string, parts: seq<string>, k: nat) {
    FirstListed(name, parts, k) && ParseInt(parts[2 * k]).None?
  }

  /** A recomputation raises exactly if an enabled, orderable provider has a position that is not a number. */
  lemma CalculatesExactlyWhen(enabled: seq<string>, orderable: seq<string>, parts: seq<string>)
    ensures Calculate(enabled, orderable, Some(parts)).Some? <==>
              forall i, k: nat :: 0 <= i < |enabled| && enabled[i] in orderable ==> !BadPosition(enabled[i], parts, k)
  {
    SlotsRaise(enabled, orderable, Pairs(parts), |enabled|);
    forall i | 0 <= i < |enabled|
      ensures Position(enabled[i], Pairs(parts), |enabled|).Some? <==>
                forall k: nat :: !BadPosition(enabled[i], parts, k)
    {
      PositionIs(enabled[i], parts, |enabled|);
      Mention(enabled[i], parts);
      if k: nat :| FirstListed(enabled[i], parts, k) {
        assert Position(enabled[i], Pairs(parts), |enabled|) == ParseInt(parts[2 * k]);
        assert BadPosition(enabled[i], parts, k) <==> ParseInt(parts[2 * k]).None?;
        forall other: nat | FirstListed(enabled[i], parts, other) ensures other == k {
          OneMention(enabled[i], parts, k, other);
        }
      }
    }
  }

  lemma OneMention(name: string, parts: seq<string>, a: nat, b: nat)
    requires FirstListed(name, parts, a) && FirstListed(name, parts, b)
    ensures a == b
  {
    if a < b {} else if b < a {}
  }

  lemma Mention(name: string, parts: seq<string>)
    ensures NotInOrder(name, parts) || exists k: nat :: FirstListed(name, parts, k)
  {
    if !NotInOrder(name, parts) {
      var j: nat :| 2 * j + 1 < |parts| && Lower(NameAt(parts, j)) == Lower(name);
      FirstUpTo(name, parts, j);
    }
  }

  lemma {:induction false} FirstUpTo(name: string, parts: seq<string>, j: nat)
    requires 2 * j + 1 < |parts| && Lower(NameAt(parts, j)) == Lower(name)
    ensures exists k: nat :: FirstListed(name, parts, k)
  {
    if i: nat :| i < j && Lower(NameAt(parts, i)) == Lower(name) {
      FirstUpTo(name, parts, i);
    } else {
      assert FirstListed(name, parts, j);
    }
  }

  // ---------------------------------------------------------------- the first order

  /** An item of a list and whether it is taken. */
  datatype Candidate<T> = Candidate(item: T, on: bool)

  /** at lists, from left to right, the places of exactly the items that are on; chosen are those items. */
  ghost predicate Picks<T>(at: seq<nat>, all: seq<Candidate<T>>, chosen: seq<T>) {
    && Increasing(at) && |at| == |chosen|
    && (forall k :: 0 <= k < |at| ==> at[k] < |all| && all[at[k]] == Candidate(chosen[k], true))
    && (forall i: nat :: i < |all| && all[i].on ==> i in at)
  }

  /** The chosen items are those that are on, each once, in the order of the list. */
  ghost predicate Picked<T(!new)>(all: seq<Candidate<T>>, chosen: seq<T>) {
    exists at: seq<nat> :: Picks(at, all, chosen)
  }

  function Shifted(t: seq<nat>, by': nat): (r: seq<nat>)
    ensures |r| == |t| && forall k :: 0 <= k < |t| ==> r[k] == by' + t[k]
  {
    seq(|t|, k requires 0 <= k < |t| => by' + t[k])
  }

  lemma ShiftedIncreasing(s: seq<nat>, t: seq<nat>, n: nat)
    requires Increasing(s) && Increasing(t) && forall k :: 0 <= k < |s| ==> s[k] < n
    ensures Increasing(s + Shifted(t, n))
  {
  }

  lemma ShiftedHas(s: seq<nat>, t: seq<nat>, n: nat, i: nat)
    requires i in s || (i >= n && i - n in t)
    ensures i in s + Shifted(t, n)
  {
    if i !in s {
      var k :| 0 <= k < |t| && t[k] == i - n;
      assert (s + Shifted(t, n))[|s| + k] == i;
    }
  }

  lemma ShiftedItems<T>(s: seq<nat>, a: seq<Candidate<T>>, x: seq<T>, t: seq<nat>, b: seq<Candidate<T>>, y: seq<T>)
    requires Picks(s, a, x) && Picks(t, b, y)
    ensures var at := s + Shifted(t, |a|);
            |at| == |x + y| && forall k :: 0 <= k < |at| ==>
              at[k] < |a + b| && (a + b)[at[k]] == Candidate((x + y)[k], true)
  {
    var at := s + Shifted(t, |a|);
    forall k | 0 <= k < |at| ensures at[k] < |a + b| && (a + b)[at[k]] == Candidate((x + y)[k], true) {
      if k < |s| {
        assert at[k] == s[k] && a[s[k]] == Candidate(x[k], true);
      } else {
        assert at[k] == |a| + t[k - |s|] && b[t[k - |s|]] == Candidate(y[k - |s|], true);
      }
    }
  }

  lemma PicksAppend<T>(s: seq<nat>, a: seq<Candidate<T>>, x: seq<T>, t: seq<nat>, b: seq<Candidate<T>>, y: seq<T>)
    requires Picks(s, a, x) && Picks(t, b, y)
    ensures Picks(s + Shifted(t, |a|), a + b, x + y)
  {
    var at := s + Shifted(t, |a|);
    ShiftedIncreasing(s, t, |a|);
    ShiftedItems(s, a, x, t, b, y);
    forall i: nat | i < |a + b| && (a + b)[i].on ensures i in at {
      assert if i < |a| then a[i].on else b[i - |a|].on;
      ShiftedHas(s, t, |a|, i);
    }
  }

  lemma PickedAppend<T(!new)>(a: seq<Candidate<T>>, x: seq<T>, b: seq<Candidate<T>>, y: seq<T>)
    requires Picked(a, x) && Picked(b, y)
    ensures Picked(a + b, x + y)
  {
    var s: seq<nat> :| Picks(s, a, x);
    var t: seq<nat> :| Picks(t, b, y);
    PicksAppend(s, a, x, t, b, y);
  }

  lemma PickedOne<T(!new)>(c: Candidate<T>)
    ensures Picked([c], if c.on then [c.item] else [])
  {
    assert c.on ==> Picks([0], [c], [c.item]);
    assert !c.on ==> Picks([], [c], []);
  }

  lemma PickedCons<T(!new)>(c: Candidate<T>, all: seq<Candidate<T>>, chosen: seq<T>)
    requires Picked(all, chosen)
    ensures Picked([c] + all, (if c.on then [c.item] else []) + chosen)
  {
    PickedOne(c);
    PickedAppend([c], if c.on then [c.item] else [], all, chosen);
  }

  lemma PickedNone<T(!new)>(all: seq<Candidate<T>>)
    requires forall i :: 0 <= i < |all| ==> !all[i].on
    ensures Picked(all, [])
  {
    assert Picks([], all, []);
  }

  function Candidates(ps: seq<Provider>, on: bool): (all: seq<Candidate<string>>)
    ensures |all| == |ps|
    ensures forall i :: 0 <= i < |ps| ==> all[i] == Candidate(ListedName(ps[i].fields), on && ps[i].fields.enabled)
  {
    seq(|ps|, i requires 0 <= i < |ps| => Candidate(ListedName(ps[i].fields), on && ps[i].fields.enabled))
  }

  lemma {:induction false} ListedArePicked(ps: seq<Provider>, on: bool)
    ensures Picked(Candidates(ps, on), if on then ListedNames(ps) else [])
  {
    if !on || ps == [] {
      PickedNone(Candidates(ps, on));
    } else {
      ListedArePicked(ps[1..], true);
      PickedCons(Candidate(ListedName(ps[0].fields), ps[0].fields.enabled), Candidates(ps[1..], true),
                 ListedNames(ps[1..]));
      assert Candidates(ps, true)
          == [Candidate(ListedName(ps[0].fields), ps[0].fields.enabled)] + Candidates(ps[1..], true);
    }
  }

  /** Every provider there is, in the fixed order: 32p, the built-in ones, Newznab, Torznab, Prowlarr. */
  function AllProviders(s: Switches, newznabs: seq<Provider>, torznabs: seq<Provider>): seq<Candidate<string>> {
    [Candidate("32p", s.torrentSearch && s.enable32p)]
    + ([Candidate("Experimental", s.experimental),
        Candidate("DDL(GetComics)", s.ddl && s.getcomics),
        Candidate("DDL(External)", s.ddl && s.external)]
       + (Candidates(newznabs, s.newznab)
          + (Candidates(torznabs, s.torznab && s.torrentSearch) + [Candidate("Prowlarr", s.prowlarr)])))
  }

  lemma BuiltinPicked(a: Candidate<string>, b: Candidate<string>, c: Candidate<string>)
    ensures Picked([a, b, c], (if a.on then [a.item] else []) + (if b.on then [b.item] else [])
                              + (if c.on then [c.item] else []))
  {
    PickedOne(a);
    PickedOne(b);
    PickedOne(c);
    var x, y := if a.on then [a.item] else [], if b.on then [b.item] else [];
    PickedAppend([a], x, [b], y);
    PickedAppend([a] + [b], x + y, [c], if c.on then [c.item] else []);
    assert [a] + [b] + [c] == [a, b, c];
  }

  lemma ThreePicked(a: seq<Candidate<string>>, x: seq<string>, b: seq<Candidate<string>>, y: seq<string>,
                    c: seq<Candidate<string>>, z: seq<string>)
    requires Picked(a, x) && Picked(b, y) && Picked(c, z)
    ensures Picked(a + (b + c), x + y + z)
  {
    PickedAppend(b, y, c, z);
    PickedAppend(a, x, b + c, y + z);
    assert x + (y + z) == x + y + z;
  }

  lemma ConfiguredPicked(s: Switches, newznabs: seq<Provider>, torznabs: seq<Provider>)
    ensures Picked(Candidates(newznabs, s.newznab) + (Candidates(torznabs, s.torznab && s.torrentSearch)
                                                      + [Candidate("Prowlarr", s.prowlarr)]),
                   Configured(s, newznabs, torznabs))
  {
    PickedOne(Candidate("Prowlarr", s.prowlarr));
    ListedArePicked(torznabs, s.torznab && s.torrentSearch);
    ListedArePicked(newznabs, s.newznab);
    ThreePicked(Candidates(newznabs, s.newznab), if s.newznab then ListedNames(newznabs) else [],
                Candidates(torznabs, s.torznab && s.torrentSearch),
                if s.torznab && s.torrentSearch then ListedNames(torznabs) else [],
                [Candidate("Prowlarr", s.prowlarr)], if s.prowlarr then ["Prowlarr"] else []);
  }

  lemma JoinPicked(tracker: Candidate<string>, builtin: seq<Candidate<string>>, configured: seq<Candidate<string>>,
                   x: seq<string>, y: seq<string>)
    requires Picked(builtin, x) && Picked(configured, y)
    ensures Picked([tracker] + (builtin + configured), (if tracker.on then [tracker.item] else []) + (x + y))
  {
    PickedAppend(builtin, x, configured, y);
    PickedOne(tracker);
    PickedAppend([tracker], if tracker.on then [tracker.item] else [], builtin + configured, x + y);
  }

  /** With no order before it, the order lists exactly the providers that are switched on, in the fixed order. */
  lemma FirstOrder(s: Switches, newznabs: seq<Provider>, torznabs: seq<Provider>)
    ensures var r := Calculate(Enabled(s, newznabs, torznabs), Orderable(s, newznabs, torznabs), None);
            r.Some? && Picked(AllProviders(s, newznabs, torznabs), r.value)
  {
    var a, b := Candidate("Experimental", s.experimental), Candidate("DDL(GetComics)", s.ddl && s.getcomics);
    var c := Candidate("DDL(External)", s.ddl && s.external);
    BuiltinPicked(a, b, c);
    ConfiguredPicked(s, newznabs, torznabs);
    JoinPicked(Candidate("32p", s.torrentSearch && s.enable32p), [a, b, c],
               Candidates(newznabs, s.newznab) + (Candidates(torznabs, s.torznab && s.torrentSearch)
                                                  + [Candidate("Prowlarr", s.prowlarr)]),
               Builtin(s), Configured(s, newznabs, torznabs));
  }

  predicate Blank(s: string) {
    forall i :: 0 <= i < |s| ==> IsSpace(s[i])
  }

  predicate Trimmed(s: string) {
    s == "" || (!IsSpace(s[0]) && !IsSpace(s[|s| - 1]))
  }

  /** Stripping takes white space off both ends and leaves none there. */
  lemma {:induction false} StripIs(s: string) returns (lead: string, trail: string)
    ensures s == lead + Strip(s) + trail && Blank(lead) && Blank(trail) && Trimmed(Strip(s))
    decreases |s|
  {
    if s != "" && IsSpace(s[0]) {
      lead, trail := StripIs(s[1..]);
      LeadBlank(s, lead, Strip(s[1..]), trail);
      lead := [s[0]] + lead;
    } else if s != "" && IsSpace(s[|s| - 1]) {
      lead, trail := StripIs(s[..|s| - 1]);
      TrailBlank(s, lead, Strip(s[..|s| - 1]), trail);
      trail := trail + [s[|s| - 1]];
    } else {
      lead, trail := "", "";
      assert s == "" + s + "";
    }
  }

  lemma LeadBlank(s: string, lead: string, middle: string, trail: string)
    requires s != "" && s[1..] == lead + middle + trail
    ensures s == [s[0]] + lead + middle + trail
  {
    assert s == [s[0]] + s[1..];
  }

  lemma TrailBlank(s: string, lead: string, middle: string, trail: string)
    requires s != "" && s[..|s| - 1] == lead + middle + trail
    ensures s == lead + middle + (trail + [s[|s| - 1]])
  {
    assert s == s[..|s| - 1] + [s[|s| - 1]];
  }

  /** The characters of a name, all but the quotation marks being kept. */
  function Letters(name: string): (all: seq<Candidate<char>>)
    ensures |all| == |name| && forall i :: 0 <= i < |name| ==> all[i] == Candidate(name[i], name[i] != '"')
  {
    seq(|name|, i requires 0 <= i < |name| => Candidate(name[i], name[i] != '"'))
  }

  lemma {:induction false} QuotesDropped(name: string)
    ensures Picked(Letters(name), WithoutQuotes(name))
  {
    if name == "" {
      PickedNone(Letters(name));
    } else {
      QuotesDropped(name[1..]);
      PickedCons(Candidate(name[0], name[0] != '"'), Letters(name[1..]), WithoutQuotes(name[1..]));
      LettersInTurn(name);
    }
  }

  lemma LettersInTurn(name: string)
    requires name != ""
    ensures Letters(name) == [Candidate(name[0], name[0] != '"')] + Letters(name[1..])
    ensures WithoutQuotes(name) == (if name[0] != '"' then [name[0]] else []) + WithoutQuotes(name[1..])
  {
  }

  /**
   The name a provider is listed under: its name, or its host if it has none; and if that ends in
   a quotation mark, what is left of it without any quotation mark and outer white space.
   */
  lemma ListedNameIs(f: Fields) returns (lead: string, trail: string)
    ensures !EndsQuoted(OwnName(f)) ==> ListedName(f) == OwnName(f)
    ensures EndsQuoted(OwnName(f)) ==> Picked(Letters(OwnName(f)), lead + ListedName(f) + trail)
    ensures EndsQuoted(OwnName(f)) ==> Blank(lead) && Blank(trail) && Trimmed(ListedName(f))
  {
    lead, trail := Unquoted(OwnName(f));
    assert EndsQuoted(OwnName(f)) ==> ListedName(f) == Strip(WithoutQuotes(OwnName(f)));
  }

  predicate EndsQuoted(name: string) {
    name != "" && name[|name| - 1] == '"'
  }

  function OwnName(f: Fields): (name: string)
    ensures f.name != "" ==> name == f.name
    ensures f.name == "" ==> name == f.host
  {
    NameOf(f)
  }

  lemma Unquoted(name: string) returns (lead: string, trail: string)
    ensures Picked(Letters(name), lead + Strip(WithoutQuotes(name)) + trail) && Blank(lead) && Blank(trail)
    ensures Trimmed(Strip(WithoutQuotes(name)))
  {
    QuotesDropped(name);
    lead, trail := StripIs(WithoutQuotes(name));
  }

  // ---------------------------------------------------------------- different names

  /** Every provider is listed under its own name: no name ends in a quotation mark. */
  predicate ListedPlainly(ps: seq<Provider>) {
    forall i :: 0 <= i < |ps| ==> ListedName(ps[i].fields) == NameOf(ps[i].fields)
  }

  lemma FoldAppend(a: seq<string>, b: seq<string>)
    requires DistinctFolded(a) && DistinctFolded(b)
    requires forall i, j :: 0 <= i < |a| && 0 <= j < |b| ==> Lower(a[i]) != Lower(b[j])
    ensures DistinctFolded(a + b)
  {
  }

  /** A listed name is the name of a listed provider. */
  lemma {:induction false} ListedIs(ps: seq<Provider>, k: nat) returns (i: nat)
    requires ListedPlainly(ps) && k < |ListedNames(ps)|
    ensures i < |ps| && ListedNames(ps)[k] == NameOf(ps[i].fields)
  {
    var here := if ps[0].fields.enabled then 1 else 0;
    if k < here {
      i := 0;
    } else {
      var j := ListedIs(ps[1..], k - here);
      i := j + 1;
    }
  }

  lemma {:induction false} ListedDistinct(ps: seq<Provider>)
    requires ListedPlainly(ps) && NamesDiffer(ps)
    ensures DistinctFolded(ListedNames(ps))
  {
    if ps != [] {
      var rest := ps[1..];
      ListedDistinct(rest);
      var first := if ps[0].fields.enabled then [ListedName(ps[0].fields)] else [];
      forall i, j | 0 <= i < |first| && 0 <= j < |ListedNames(rest)|
        ensures Lower(first[i]) != Lower(ListedNames(rest)[j])
      {
        var m := ListedIs(rest, j);
        assert rest[m] == ps[m + 1];
      }
      FoldAppend(first, ListedNames(rest));
    }
  }

  /** The configured providers that are listed, Newznab before Torznab. */
  function Listed(sw: Switches, ns: seq<Provider>, ts: seq<Provider>): seq<string> {
    (if sw.newznab then ListedNames(ns) else [])
    + (if sw.torznab && sw.torrentSearch then ListedNames(ts) else [])
  }

  lemma ListedFrom(sw: Switches, ns: seq<Provider>, ts: seq<Provider>, k: nat) returns (i: nat)
    requires ListedPlainly(ns) && ListedPlainly(ts) && k < |Listed(sw, ns, ts)|
    ensures i < |ns + ts| && Listed(sw, ns, ts)[k] == NameOf((ns + ts)[i].fields)
  {
    var front := if sw.newznab then ListedNames(ns) else [];
    if k < |front| {
      i := ListedIs(ns, k);
    } else {
      var j := ListedIs(ts, k - |front|);
      i := |ns| + j;
    }
  }

  lemma ListedNamesDiffer(sw: Switches, ns: seq<Provider>, ts: seq<Provider>)
    requires ListedPlainly(ns) && ListedPlainly(ts) && NamesDiffer(ns + ts)
    ensures DistinctFolded(Listed(sw, ns, ts))
  {
    var all := ns + ts;
    assert NamesDiffer(ns) by {
      assert forall i :: 0 <= i < |ns| ==> all[i] == ns[i];
    }
    assert NamesDiffer(ts) by {
      forall i, j | 0 <= i < j < |ts| ensures Lower(NameOf(ts[i].fields)) != Lower(NameOf(ts[j].fields)) {
        assert all[|ns| + i] == ts[i] && all[|ns| + j] == ts[j];
      }
    }
    ListedDistinct(ns);
    ListedDistinct(ts);
    forall i, j | 0 <= i < |ListedNames(ns)| && 0 <= j < |ListedNames(ts)|
      ensures Lower(ListedNames(ns)[i]) != Lower(ListedNames(ts)[j])
    {
      var m := ListedIs(ns, i);
      var n := ListedIs(ts, j);
      assert all[m] == ns[m] && all[|ns| + n] == ts[n];
    }
    FoldAppend(if sw.newznab then ListedNames(ns) else [],
               if sw.torznab && sw.torrentSearch then ListedNames(ts) else []);
  }
}
