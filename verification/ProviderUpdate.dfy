/**
 The provider update as a whole: the preparation, the provider order and the reconciliation put
 together inside one transaction of the configuration store.
 */
module ProviderUpdate {
  import opened Options
  import opened Providers
  import opened Text
  import Codec = ProviderCodec
  import Credentials
  import Ids = ProviderIds
  import Order = ProviderOrder
  import Searches = ProviderSearches
  import Store = ConfigStore
  import Write = ProviderWrite

  // ---------------------------------------------------------------- injective identities

  predicate Known(name: string, ns: seq<Provider>, ts: seq<Provider>) {
    Searches.Identify(name, ns, ts).Some?
  }

  /** The configured provider b has the id that the name a is always projected with. */
  predicate TakesFixedId(a: string, b: string, ns: seq<Provider>, ts: seq<Provider>) {
    && Searches.BuiltinId(a).Some? && Searches.BuiltinId(b).None? && Known(b, ns, ts)
    && Searches.Identify(b, ns, ts).value.id == Searches.BuiltinId(a).value
  }

  lemma SameIdExactlyWhen(a: string, b: string, ns: seq<Provider>, ts: seq<Provider>)
    requires Ids.DistinctIds(ns + ts) && Known(a, ns, ts) && Known(b, ns, ts) && Lower(a) != Lower(b)
    ensures Searches.Identify(a, ns, ts).value.id == Searches.Identify(b, ns, ts).value.id <==>
              TakesFixedId(a, b, ns, ts) || TakesFixedId(b, a, ns, ts)
  {
    if Searches.BuiltinId(a).Some? {
      Searches.BuiltinIdentity(a, ns, ts);
    }
    if Searches.BuiltinId(b).Some? {
      Searches.BuiltinIdentity(b, ns, ts);
    }
    if Searches.BuiltinId(a).Some? && Searches.BuiltinId(a) == Searches.BuiltinId(b) {
      Searches.SameBuiltinSameFold(a, b);
    }
    if Searches.BuiltinId(a).None? && Searches.BuiltinId(b).None? {
      var i := Searches.ConfiguredIdentity(a, ns, ts);
      var j := Searches.ConfiguredIdentity(b, ns, ts);
      assert i != j;
    }
  }

  /** Two names of an order that are projected apart. */
  predicate PairApart(a: string, b: string, ns: seq<Provider>, ts: seq<Provider>) {
    Lower(a) != Lower(b) && !TakesFixedId(a, b, ns, ts) && !TakesFixedId(b, a, ns, ts)
  }

  predicate HasId(name: string, ns: seq<Provider>, ts: seq<Provider>) {
    Known(name, ns, ts) ==> Searches.Identify(name, ns, ts).value.id != 0
  }

  predicate Apart(order: seq<string>, ns: seq<Provider>, ts: seq<Provider>) {
    && (forall k :: 0 <= k < |order| ==> HasId(order[k], ns, ts))
    && (forall i, j :: 0 <= i < j < |order| && Known(order[i], ns, ts) && Known(order[j], ns, ts) ==>
          PairApart(order[i], order[j], ns, ts))
  }

  lemma ApartStep(order: seq<string>, ns: seq<Provider>, ts: seq<Provider>)
    requires order != []
    ensures var front, last := order[..|order| - 1], order[|order| - 1];
            Apart(order, ns, ts) <==>
              && Apart(front, ns, ts) && HasId(last, ns, ts)
              && (Known(last, ns, ts) ==>
                    forall i :: 0 <= i < |front| && Known(front[i], ns, ts) ==> PairApart(front[i], last, ns, ts))
  {
    var front := order[..|order| - 1];
    assert forall i :: 0 <= i < |front| ==> front[i] == order[i];
    if Apart(order, ns, ts) {
      forall i | 0 <= i < |front| ensures HasId(front[i], ns, ts) {
        assert HasId(order[i], ns, ts);
      }
    }
  }

  /** The last name is projected apart from the others exactly if it is apart from them as a name. */
  lemma LastApart(front: seq<string>, last: string, ns: seq<Provider>, ts: seq<Provider>)
    requires Searches.Identities(front, ns, ts).Some? && Ids.DistinctIds(ns + ts) && Known(last, ns, ts)
    ensures var cs, c := Searches.Identities(front, ns, ts).value, Searches.Identify(last, ns, ts).value;
            (forall k :: 0 <= k < |cs| ==> cs[k].id != c.id && Lower(cs[k].name) != Lower(c.name)) <==>
            (forall i :: 0 <= i < |front| && Known(front[i], ns, ts) ==> PairApart(front[i], last, ns, ts))
  {
    var cs, c := Searches.Identities(front, ns, ts).value, Searches.Identify(last, ns, ts).value;
    Searches.IdentifyFolds(last, ns, ts);
    forall k | 0 <= k < |cs|
      ensures exists i :: 0 <= i < |front| && Known(front[i], ns, ts)
                          && (PairApart(front[i], last, ns, ts) ==>
                                cs[k].id != c.id && Lower(cs[k].name) != Lower(c.name))
    {
      var i := Searches.IdentitiesCome(front, ns, ts, k);
      OneApart(front[i], last, ns, ts);
      assert Known(front[i], ns, ts);
    }
    forall i | 0 <= i < |front| && Known(front[i], ns, ts)
      ensures exists k :: 0 <= k < |cs| && (cs[k].id != c.id && Lower(cs[k].name) != Lower(c.name) ==>
                                              PairApart(front[i], last, ns, ts))
    {
      Searches.IdentityListed(front, ns, ts, i);
      OneApart(front[i], last, ns, ts);
      var k :| 0 <= k < |cs| && cs[k] == Searches.Identify(front[i], ns, ts).value;
    }
  }

  lemma OneApart(a: string, b: string, ns: seq<Provider>, ts: seq<Provider>)
    requires Ids.DistinctIds(ns + ts) && Known(a, ns, ts) && Known(b, ns, ts)
    ensures var c, d := Searches.Identify(a, ns, ts).value, Searches.Identify(b, ns, ts).value;
            PairApart(a, b, ns, ts) <==> c.id != d.id && Lower(c.name) != Lower(d.name)
  {
    Searches.IdentifyFolds(a, ns, ts);
    Searches.IdentifyFolds(b, ns, ts);
    if Lower(a) != Lower(b) {
      SameIdExactlyWhen(a, b, ns, ts);
    }
  }

  /**
   An order is projected to different identities if and only if its known names differ in more
   than case, none has the id 0, and none has the id that another one is always projected with.
   */
  lemma {:induction false} InjectiveExactlyWhen(order: seq<string>, ns: seq<Provider>, ts: seq<Provider>)
    requires Searches.Identities(order, ns, ts).Some? && Ids.DistinctIds(ns + ts)
    ensures Searches.Injective(Searches.Identities(order, ns, ts).value) <==> Apart(order, ns, ts)
  {
    if order != [] {
      var front, last := order[..|order| - 1], order[|order| - 1];
      InjectiveExactlyWhen(front, ns, ts);
      ApartStep(order, ns, ts);
      if Known(last, ns, ts) {
        LastApart(front, last, ns, ts);
        InjectiveStep(Searches.Identities(front, ns, ts).value, Searches.Identify(last, ns, ts).value);
      }
    }
  }

  lemma InjectiveStep(cs: seq<Searches.Identity>, c: Searches.Identity)
    ensures Searches.Injective(cs + [c]) <==>
              && Searches.Injective(cs) && c.id != 0
              && forall k :: 0 <= k < |cs| ==> cs[k].id != c.id && Lower(cs[k].name) != Lower(c.name)
  {
    var all := cs + [c];
    assert all[|cs|] == c && forall k :: 0 <= k < |cs| ==> all[k] == cs[k];
  }

  /** No provider of the order has the id 0, or the id that another one is always projected with. */
  predicate IdsApart(order: seq<string>, ns: seq<Provider>, ts: seq<Provider>) {
    && (forall k :: 0 <= k < |order| ==> HasId(order[k], ns, ts))
    && (forall i, j :: 0 <= i < |order| && 0 <= j < |order| ==> !TakesFixedId(order[i], order[j], ns, ts))
  }

  /** An order of different names is projected to different identities exactly if the ids are apart. */
  lemma OrderIsInjective(order: seq<string>, ns: seq<Provider>, ts: seq<Provider>)
    requires Searches.Identities(order, ns, ts).Some? && Order.DistinctFolded(order) && Ids.DistinctIds(ns + ts)
    ensures Searches.Injective(Searches.Identities(order, ns, ts).value) <==> IdsApart(order, ns, ts)
  {
    InjectiveExactlyWhen(order, ns, ts);
    if Apart(order, ns, ts) {
      forall i, j | 0 <= i < |order| && 0 <= j < |order| ensures !TakesFixedId(order[i], order[j], ns, ts) {
        BuiltinsAreKnown(order[i], ns, ts);
        assert i < j && Known(order[j], ns, ts) ==> PairApart(order[i], order[j], ns, ts);
        assert j < i && Known(order[j], ns, ts) ==> PairApart(order[j], order[i], ns, ts);
      }
    }
  }

  lemma BuiltinsAreKnown(name: string, ns: seq<Provider>, ts: seq<Provider>)
    ensures Searches.BuiltinId(name).Some? ==> Known(name, ns, ts)
  {
    if Searches.BuiltinId(name).Some? {
      Searches.BuiltinIdentity(name, ns, ts);
    }
  }

  /** Every name with a fixed id that can be ordered has that id reserved. */
  predicate FixedIdsReserved(order: seq<string>, reserved: set<int>) {
    forall k :: 0 <= k < |order| && Searches.BuiltinId(order[k]).Some? ==>
      Searches.BuiltinId(order[k]).value in reserved
  }

  /** The usual case: the fixed ids are reserved, and no id is 0. */
  lemma ReservedIdsAreApart(order: seq<string>, ns: seq<Provider>, ts: seq<Provider>, reserved: set<int>)
    requires FixedIdsReserved(order, reserved) && Ids.IdsAvoid(ns + ts, reserved)
    requires Searches.NonzeroIds(ns) && Searches.NonzeroIds(ts)
    ensures IdsApart(order, ns, ts)
  {
    forall k | 0 <= k < |order| ensures HasId(order[k], ns, ts) {
      Searches.IdentifyFolds(order[k], ns, ts);
    }
    forall i, j | 0 <= i < |order| && 0 <= j < |order| ensures !TakesFixedId(order[i], order[j], ns, ts) {
      if Searches.BuiltinId(order[j]).None? && Known(order[j], ns, ts) {
        var m := Searches.ConfiguredIdentity(order[j], ns, ts);
      }
    }
  }

  // ---------------------------------------------------------------- the order names different providers

  /** The names of built-in providers that are switched on, as the order lists them. */
  function Fixed(sw: Switches): seq<string> {
    (if sw.torrentSearch && sw.enable32p then [Order.TRACKER] else []) + Order.Builtin(sw)
    + (if sw.prowlarr then [Searches.PROWLARR] else [])
  }

  const EXPERIMENTAL := "Experimental"

  /** A built-in name is reserved while its provider is switched on, and so is its fixed id. */
  predicate Guarded(name: string, sw: Switches) {
    && Lower(name) in Ids.ReservedNames(sw) && Strip(name) == name
    && (Searches.BuiltinId(name).Some? ==> Searches.BuiltinId(name).value in Ids.ReservedIds(sw))
  }

  lemma TrackerGuarded(sw: Switches)
    requires sw.torrentSearch && sw.enable32p
    ensures Guarded(Order.TRACKER, sw)
  {
    assert Lower(Order.TRACKER) == "32p";
  }

  lemma ExperimentalGuarded(sw: Switches)
    requires sw.experimental
    ensures Guarded(EXPERIMENTAL, sw)
  {
    assert Lower(EXPERIMENTAL) == "experimental";
  }

  lemma GetcomicsGuarded(sw: Switches)
    requires sw.ddl && sw.getcomics
    ensures Guarded(Searches.GETCOMICS, sw)
  {
    assert Lower(Searches.GETCOMICS) == "ddl(getcomics)";
  }

  lemma ExternalGuarded(sw: Switches)
    requires sw.ddl && sw.external
    ensures Guarded(Searches.EXTERNAL, sw)
  {
    assert Lower(Searches.EXTERNAL) == "ddl(external)";
  }

  lemma ProwlarrGuarded(sw: Switches)
    requires sw.prowlarr
    ensures Guarded(Searches.PROWLARR, sw)
  {
    assert Lower(Searches.PROWLARR) == "prowlarr";
  }

  lemma FixedCases(sw: Switches, k: nat)
    requires k < |Fixed(sw)|
    ensures || (Fixed(sw)[k] == Order.TRACKER && sw.torrentSearch && sw.enable32p)
            || (Fixed(sw)[k] == EXPERIMENTAL && sw.experimental)
            || (Fixed(sw)[k] == Searches.GETCOMICS && sw.ddl && sw.getcomics)
            || (Fixed(sw)[k] == Searches.EXTERNAL && sw.ddl && sw.external)
            || (Fixed(sw)[k] == Searches.PROWLARR && sw.prowlarr)
  {
  }

  lemma FixedGuarded(sw: Switches, k: nat)
    requires k < |Fixed(sw)|
    ensures Guarded(Fixed(sw)[k], sw)
  {
    FixedCases(sw, k);
    if Fixed(sw)[k] == Order.TRACKER && sw.torrentSearch && sw.enable32p {
      TrackerGuarded(sw);
    } else if Fixed(sw)[k] == EXPERIMENTAL && sw.experimental {
      ExperimentalGuarded(sw);
    } else if Fixed(sw)[k] == Searches.GETCOMICS && sw.ddl && sw.getcomics {
      GetcomicsGuarded(sw);
    } else if Fixed(sw)[k] == Searches.EXTERNAL && sw.ddl && sw.external {
      ExternalGuarded(sw);
    } else {
      ProwlarrGuarded(sw);
    }
  }

  lemma BuiltinDistinct(sw: Switches)
    ensures Order.DistinctFolded(Order.Builtin(sw))
  {
    assert |EXPERIMENTAL| == 12;
    assert Lower(Searches.GETCOMICS)[4] == 'g' && Lower(Searches.EXTERNAL)[4] == 'e';
  }

  /** What a prepared write guarantees about the two runtime lists. */
  predicate SoundIdentities(sw: Switches, ns: seq<Provider>, ts: seq<Provider>) {
    && Ids.DistinctIds(ns + ts) && Ids.IdsAvoid(ns + ts, Ids.ReservedIds(sw))
    && Ids.NamesValid(Ids.CanonicalNames(ns + ts), Ids.ReservedNames(sw))
  }

  /** A listed name folds to no guarded one. */
  lemma ListedVersusGuarded(sw: Switches, ns: seq<Provider>, ts: seq<Provider>, k: nat, name: string)
    requires Order.ListedPlainly(ns) && Order.ListedPlainly(ts) && SoundIdentities(sw, ns, ts)
    requires k < |Order.Listed(sw, ns, ts)| && Guarded(name, sw)
    ensures Lower(Order.Listed(sw, ns, ts)[k]) != Lower(name)
  {
    var i := Order.ListedFrom(sw, ns, ts, k);
    assert Ids.CanonicalNames(ns + ts)[i] == Ids.Canonical((ns + ts)[i].fields);
    Ids.AvoidsReserved((ns + ts)[i], name, Ids.ReservedNames(sw));
  }

  lemma FixedLengths(sw: Switches)
    ensures |Order.TRACKER| == 3 && |Searches.PROWLARR| == 8
    ensures forall k :: 0 <= k < |Order.Builtin(sw)| ==> |Order.Builtin(sw)[k]| > 8
  {
  }

  /** No configured provider is listed under a name that is projected with a fixed id. */
  predicate NoneBuiltin(listed: seq<string>) {
    forall k :: 0 <= k < |listed| ==> Searches.BuiltinId(listed[k]).None?
  }

  /** The names of an enabled order, with the guarded ones around the listed ones. */
  lemma EnabledDistinct(sw: Switches, ns: seq<Provider>, ts: seq<Provider>)
    requires Order.ListedPlainly(ns) && Order.ListedPlainly(ts) && SoundIdentities(sw, ns, ts)
    ensures Order.DistinctFolded(Order.Enabled(sw, ns, ts))
    ensures NoneBuiltin(Order.Listed(sw, ns, ts)) ==>
              FixedIdsReserved(Order.Enabled(sw, ns, ts), Ids.ReservedIds(sw))
  {
    var tracker := if sw.torrentSearch && sw.enable32p then [Order.TRACKER] else [];
    var builtin := Order.Builtin(sw);
    var listed := Order.Listed(sw, ns, ts);
    var last := if sw.prowlarr then [Searches.PROWLARR] else [];
    assert Order.Enabled(sw, ns, ts) == tracker + (builtin + (listed + last));
    Ids.ValidNamesDiffer(ns + ts, Ids.ReservedNames(sw));
    Order.ListedNamesDiffer(sw, ns, ts);
    BuiltinDistinct(sw);
    assert Fixed(sw) == tracker + builtin + last;
    forall k | 0 <= k < |Fixed(sw)| ensures Guarded(Fixed(sw)[k], sw) {
      FixedGuarded(sw, k);
    }
    forall k, m | 0 <= k < |listed| && 0 <= m < |Fixed(sw)| ensures Lower(listed[k]) != Lower(Fixed(sw)[m]) {
      ListedVersusGuarded(sw, ns, ts, k, Fixed(sw)[m]);
    }
    FixedLengths(sw);
    Arranged(tracker, builtin, listed, last, Ids.ReservedIds(sw));
  }

  lemma Arranged(tracker: seq<string>, builtin: seq<string>, listed: seq<string>, last: seq<string>, reserved: set<int>)
    requires |tracker| <= 1 && |last| <= 1 && Order.DistinctFolded(builtin) && Order.DistinctFolded(listed)
    requires forall k :: 0 <= k < |tracker| ==> |tracker[k]| == 3
    requires forall k :: 0 <= k < |last| ==> |last[k]| == 8
    requires forall k :: 0 <= k < |builtin| ==> |builtin[k]| > 8
    requires var fixed := tracker + builtin + last;
             && FixedIdsReserved(fixed, reserved)
             && (forall k, m :: 0 <= k < |listed| && 0 <= m < |fixed| ==> Lower(listed[k]) != Lower(fixed[m]))
    ensures var all := tracker + (builtin + (listed + last));
            Order.DistinctFolded(all) && (NoneBuiltin(listed) ==> FixedIdsReserved(all, reserved))
  {
    var fixed := tracker + builtin + last;
    var all := tracker + (builtin + (listed + last));
    assert forall k :: 0 <= k < |tracker| ==> fixed[k] == tracker[k];
    assert forall k :: 0 <= k < |builtin| ==> fixed[|tracker| + k] == builtin[k];
    assert forall k :: 0 <= k < |last| ==> fixed[|tracker| + |builtin| + k] == last[k];
    Order.FoldAppend(listed, last);
    assert forall i, j :: 0 <= i < |builtin| && 0 <= j < |last| ==> |Lower(builtin[i])| != |Lower(last[j])|;
    Order.FoldAppend(builtin, listed + last);
    assert forall i, j :: 0 <= i < |tracker| && 0 <= j < |builtin| ==> |Lower(tracker[i])| != |Lower(builtin[j])|;
    assert forall i, j :: 0 <= i < |tracker| && 0 <= j < |last| ==> |Lower(tracker[i])| != |Lower(last[j])|;
    Order.FoldAppend(tracker, builtin + (listed + last));
    forall k | 0 <= k < |all| && NoneBuiltin(listed)
      ensures Searches.BuiltinId(all[k]).Some? ==> Searches.BuiltinId(all[k]).value in reserved
    {
      if k < |tracker| + |builtin| {
        assert all[k] == fixed[k];
      } else if k < |tracker| + |builtin| + |listed| {
        assert all[k] == listed[k - |tracker| - |builtin|];
      } else {
        assert all[k] == fixed[k - |listed|];
      }
    }
  }

  /** Whatever the previous order, the new one names different providers. */
  lemma OrderNamesDiffer(sw: Switches, ns: seq<Provider>, ts: seq<Provider>, previous: Option<seq<string>>)
    requires Order.ListedPlainly(ns) && Order.ListedPlainly(ts) && SoundIdentities(sw, ns, ts)
    requires Order.Calculate(Order.Enabled(sw, ns, ts), Order.Orderable(sw, ns, ts), previous).Some?
    ensures var order := Order.Calculate(Order.Enabled(sw, ns, ts), Order.Orderable(sw, ns, ts), previous).value;
            && Order.DistinctFolded(order)
            && (NoneBuiltin(Order.Listed(sw, ns, ts)) ==> FixedIdsReserved(order, Ids.ReservedIds(sw)))
  {
    var enabled, orderable := Order.Enabled(sw, ns, ts), Order.Orderable(sw, ns, ts);
    EnabledDistinct(sw, ns, ts);
    RecomputedNamesDiffer(enabled, orderable, previous, Ids.ReservedIds(sw));
  }

  lemma RecomputedNamesDiffer(enabled: seq<string>, orderable: seq<string>, previous: Option<seq<string>>,
                              reserved: set<int>)
    requires Order.DistinctFolded(enabled) && Order.Calculate(enabled, orderable, previous).Some?
    ensures var order := Order.Calculate(enabled, orderable, previous).value;
            && Order.DistinctFolded(order)
            && (FixedIdsReserved(enabled, reserved) ==> FixedIdsReserved(order, reserved))
  {
    if previous.Some? {
      var s := Order.SortedSlots(enabled, orderable, previous.value);
      var pairs := Order.Pairs(previous.value);
      forall i, j | 0 <= i < j < |s| ensures Lower(s[i].name) != Lower(s[j].name) {
        assert Order.Before(s[i], s[j]);
        assert Order.IsSlot(s[i], enabled, orderable, pairs) && Order.IsSlot(s[j], enabled, orderable, pairs);
        assert s[i].seat != s[j].seat;
        var a, b := |enabled| - 1 - s[i].seat, |enabled| - 1 - s[j].seat;
        if a < b {
          assert Lower(enabled[a]) != Lower(enabled[b]);
        } else {
          assert Lower(enabled[b]) != Lower(enabled[a]);
        }
      }
      forall k | 0 <= k < |s| && FixedIdsReserved(enabled, reserved) && Searches.BuiltinId(s[k].name).Some?
        ensures Searches.BuiltinId(s[k].name).value in reserved
      {
        assert Order.IsSlot(s[k], enabled, orderable, pairs);
        assert s[k].name == enabled[|enabled| - 1 - s[k].seat];
      }
    }
  }

  /**
   The three steps fit together: a preparation that does not raise makes the providers of the
   order, whatever the previous order was, different identities, which is what the
   reconciliation needs, exactly if their ids are apart; and so they are if no id is 0 and no
   configured provider has the name of a built-in one.
   */
  lemma PreparedOrderIsInjective(sw: Switches, ns: seq<Provider>, ts: seq<Provider>, previous: Option<seq<string>>)
    requires Order.ListedPlainly(ns) && Order.ListedPlainly(ts) && SoundIdentities(sw, ns, ts)
    requires Order.Calculate(Order.Enabled(sw, ns, ts), Order.Orderable(sw, ns, ts), previous).Some?
    requires var order := Order.Calculate(Order.Enabled(sw, ns, ts), Order.Orderable(sw, ns, ts), previous).value;
             Searches.Identities(order, ns, ts).Some?
    ensures var order := Order.Calculate(Order.Enabled(sw, ns, ts), Order.Orderable(sw, ns, ts), previous).value;
            && (Searches.Injective(Searches.Identities(order, ns, ts).value) <==> IdsApart(order, ns, ts))
            && (Searches.NonzeroIds(ns) && Searches.NonzeroIds(ts) && NoneBuiltin(Order.Listed(sw, ns, ts)) ==>
                  IdsApart(order, ns, ts))
  {
    var order := Order.Calculate(Order.Enabled(sw, ns, ts), Order.Orderable(sw, ns, ts), previous).value;
    OrderNamesDiffer(sw, ns, ts, previous);
    OrderIsInjective(order, ns, ts);
    if Searches.NonzeroIds(ns) && Searches.NonzeroIds(ts) && NoneBuiltin(Order.Listed(sw, ns, ts)) {
      ReservedIdsAreApart(order, ns, ts, Ids.ReservedIds(sw));
    }
  }

  /** A configured provider called Prowlarr, while Prowlarr is off, is projected with the id another one has. */
  lemma FalseProwlarr(f: Fields, g: Fields)
    requires f.name == Searches.PROWLARR && NameOf(g) != "" && Searches.BuiltinId(NameOf(g)).None?
    requires Lower(NameOf(g)) != Lower(Searches.PROWLARR)
    ensures var ns, order := [Provider(f, 7), Provider(g, 202)], [Searches.PROWLARR, NameOf(g)];
            && Ids.DistinctIds(ns + []) && Searches.Identities(order, ns, []).Some?
            && !Searches.Injective(Searches.Identities(order, ns, []).value)
  {
    var none: seq<Provider> := [];
    var ns, order := [Provider(f, 7), Provider(g, 202)], [Searches.PROWLARR, NameOf(g)];
    assert ns + none == ns && ns[1..] == [Provider(g, 202)];
    assert Searches.FindEntry(NameOf(g), "newznab", ns[1..]) == Some(Searches.Identity(NameOf(g), "newznab", 202));
    assert Searches.FindEntry(NameOf(g), "newznab", ns) == Some(Searches.Identity(NameOf(g), "newznab", 202));
    Searches.BuiltinIdentity(Searches.PROWLARR, ns, none);
    assert order[..1] == [Searches.PROWLARR] && order[..1][..0] == [];
    assert Searches.Identities(order[..1][..0], ns, none) == Some([]);
    assert Searches.Identities(order[..1], ns, none).Some?;
    assert TakesFixedId(order[0], order[1], ns, none);
    InjectiveExactlyWhen(order, ns, none);
  }

  // ---------------------------------------------------------------- names that end in a quotation mark

  predicate Quoted(name: string) {
    name != "" && name[|name| - 1] == '"'
  }

  lemma {:induction false} WithoutQuotesHasNone(s: string)
    ensures '"' !in Order.WithoutQuotes(s)
  {
    if s != "" {
      WithoutQuotesHasNone(s[1..]);
    }
  }

  lemma {:induction false} StripComes(s: string, c: char)
    requires c in Strip(s)
    ensures c in s
    decreases |s|
  {
    if s != "" && IsSpace(s[0]) {
      StripComes(s[1..], c);
    } else if s != "" && IsSpace(s[|s| - 1]) {
      StripComes(s[..|s| - 1], c);
    }
  }

  lemma ListedIsUnquoted(f: Fields)
    ensures !Quoted(Order.ListedName(f))
  {
    var listed := Order.ListedName(f);
    if Quoted(NameOf(f)) && listed != "" {
      var last := listed[|listed| - 1];
      assert last in listed;
      StripComes(Order.WithoutQuotes(NameOf(f)), last);
      WithoutQuotesHasNone(NameOf(f));
    }
  }

  lemma QuotedFold(a: string, b: string)
    requires Lower(a) == Lower(b)
    ensures Quoted(a) <==> Quoted(b)
  {
    assert |Lower(a)| == |a| && |Lower(b)| == |b|;
    if a != "" {
      assert LowerChar(a[|a| - 1]) == Lower(a)[|a| - 1] == Lower(b)[|b| - 1] == LowerChar(b[|b| - 1]);
    }
  }

  /**
   A provider whose name ends in a quotation mark is listed under another name, which is never
   identified as that provider: it is unknown, and the update raises, or stands for another one.
   */
  lemma QuotedIsNeverProjected(f: Fields, ns: seq<Provider>, ts: seq<Provider>)
    ensures var c := Searches.Identify(Order.ListedName(f), ns, ts);
            c.Some? ==> !Quoted(c.value.name) && (Quoted(NameOf(f)) ==> Lower(c.value.name) != Lower(NameOf(f)))
  {
    var name := Order.ListedName(f);
    var c := Searches.Identify(name, ns, ts);
    ListedIsUnquoted(f);
    Searches.IdentifyFolds(name, ns, ts);
    if c.Some? {
      QuotedFold(c.value.name, name);
      if Lower(c.value.name) == Lower(NameOf(f)) {
        QuotedFold(c.value.name, NameOf(f));
      }
    }
  }

  // ---------------------------------------------------------------- the transaction

  /** What a provider update works on besides the store. */
  datatype Update = Update(
    cipher: Credentials.Cipher,
    newznabs: seq<Entry>,
    torznabs: seq<Entry>,
    work: Write.Work,
    switches: Switches,
    previous: Option<seq<string>>,
    unique: bool)

  function Outcome(u: Update): Option<Write.Prepared> {
    Write.Prepare(u.cipher, u.newznabs, u.torznabs, u.work)
  }

  function NewOrder(u: Update, ns: seq<Provider>, ts: seq<Provider>): Option<seq<string>> {
    Order.Calculate(Order.Enabled(u.switches, ns, ts), Order.Orderable(u.switches, ns, ts), u.previous)
  }

  function Summary(p: Write.Prepared): Store.Prepared {
    Store.Prepared(p.newznab.text, p.torznab.text, p.newznab.runtime, p.torznab.runtime, Write.Tokens(p),
                   Write.Active(Write.Runtime(p)) != {})
  }

  /** The steps of the write, as far as they succeed, are the ones specified for this update. */
  predicate Linked(u: Update, table: seq<Searches.Row>, env: Store.WriteEnv) {
    env.prepare.Got? ==>
      && Outcome(u).Some? && env.prepare.value == Summary(Outcome(u).value)
      && var ns, ts := env.prepare.value.newznabs, env.prepare.value.torznabs;
         env.order.Got? ==>
           && NewOrder(u, ns, ts) == Some(env.order.value.order)
           && env.order.value.text == Join(Order.Flat(env.order.value.order))
           && (env.project.Got? ==>
                 Searches.Reconcile(table, env.order.value.order, ns, ts, u.unique) == Some(env.project.value))
  }

  /** The preparation starts from the reserved identities of the switched-on built-in providers. */
  predicate StartsReserved(u: Update) {
    u.work.ids == Ids.ReservedIds(u.switches) && u.work.names == Ids.ReservedNames(u.switches)
  }

  /**
   A provider update that returns True: the published order names different providers, every one
   of them has a row with its name, type and id in the committed table, and the names in the table
   are distinct.
   */
  lemma CommittedUpdate(s: Store.State, values: map<string, string>, configure: bool, env: Store.ApplyEnv, u: Update)
    requires Store.HasProviders(values) && Store.Apply(s, values, configure, env).outcome == Store.True
    requires Linked(u, s.table, env.write) && StartsReserved(u)
    requires env.write.prepare.Got? ==>
               && Order.ListedPlainly(env.write.prepare.value.newznabs)
               && Order.ListedPlainly(env.write.prepare.value.torznabs)
               && (env.write.order.Got? ==>
                     IdsApart(env.write.order.value.order, env.write.prepare.value.newznabs,
                              env.write.prepare.value.torznabs))
               && Searches.CleanStart(s.table, env.write.prepare.value.newznabs, env.write.prepare.value.torznabs,
                    u.unique)
    ensures var t := Store.Apply(s, values, configure, env).state;
            && t.runtime.order.Some? && Order.DistinctFolded(t.runtime.order.value)
            && Searches.DistinctNames(t.table)
            && (forall k :: 0 <= k < |t.runtime.order.value| ==>
                  var c := Searches.Identify(t.runtime.order.value[k], t.runtime.newznabs, t.runtime.torznabs);
                  c.Some? ==> Searches.HasRow(t.table, c.value))
  {
    Store.ProviderCommit(s, values, configure, env);
    var t := Store.Apply(s, values, configure, env).state;
    var ns, ts, order := t.runtime.newznabs, t.runtime.torznabs, t.runtime.order.value;
    Write.PreparedIds(u.cipher, u.newznabs, u.torznabs, u.work);
    Write.PreparedNames(u.cipher, u.newznabs, u.torznabs, u.work);
    OrderNamesDiffer(u.switches, ns, ts, u.previous);
    PreparedOrderIsInjective(u.switches, ns, ts, u.previous);
    Searches.CommittedProjection(s.table, order, ns, ts, u.unique);
    forall k | 0 <= k < |order| && Searches.Identify(order[k], ns, ts).Some?
      ensures Searches.HasRow(t.table, Searches.Identify(order[k], ns, ts).value)
    {
      Searches.IdentityListed(order, ns, ts, k);
    }
  }

  // ---------------------------------------------------------------- reading the file back

  /** A provider as it comes back from the file. */
  function Reread(p: Provider): Provider {
    Provider(Codec.Normal(Entry(p.fields, Some(p.id))).fields, p.id)
  }

  function RereadAll(ps: seq<Provider>): (r: seq<Provider>)
    ensures |r| == |ps| && forall i :: 0 <= i < |r| ==> r[i] == Reread(ps[i])
  {
    seq(|ps|, i requires 0 <= i < |ps| => Reread(ps[i]))
  }

  /**
   The option text of a prepared list, read by a process that starts with an empty cache, yields
   the runtime list again, up to the spelling of absent credentials and of category separators,
   exactly unless the text is ambiguous.
   */
  lemma FieldReread(c: Credentials.Cipher, entries: seq<Entry>, w: Write.Work)
    requires Credentials.Sound(c) && Credentials.Trusted(c, w.cache) && Write.PrepareField(c, entries, w).Some?
    ensures var f := Write.PrepareField(c, entries, w).value;
            var read := Codec.Parse(f.text);
            if Codec.Ambiguous(AsEntries(f.stored), 7) then read.None?
            else
              && read.Some?
              && var d := Credentials.DecodeAll(c, read.value, map[]);
                 d.Some? && d.value.entries == AsEntries(RereadAll(f.runtime))
  {
    var f := Write.PrepareField(c, entries, w).value;
    Write.FieldStored(c, entries, w);
    Codec.StoredEntriesRoundTrip(AsEntries(f.stored), 7);
    assert Codec.NormalAll(AsEntries(f.stored)) == AsEntries(RereadAll(f.stored));
    Credentials.StorageDecodesToRuntime(c, RereadAll(f.stored), RereadAll(f.runtime), map[], f.after.cache);
  }

  /**
   After a committed provider update the options in the parser that was written to the file read
   back as the runtime lists.
   */
  lemma CommittedOptionsReread(s: Store.State, values: map<string, string>, configure: bool, env: Store.ApplyEnv,
                               u: Update)
    requires Store.HasProviders(values) && Store.Apply(s, values, configure, env).outcome == Store.True
    requires Linked(u, s.table, env.write) && StartsReserved(u)
    requires Credentials.Sound(u.cipher) && Credentials.Trusted(u.cipher, u.work.cache)
    requires Outcome(u).Some? ==>
               && !Codec.Ambiguous(AsEntries(Outcome(u).value.newznab.stored), 7)
               && !Codec.Ambiguous(AsEntries(Outcome(u).value.torznab.stored), 7)
    ensures var t := Store.Apply(s, values, configure, env).state;
            && t.disk == Some(Store.Render(t.parser))
            && ReadsAs(u.cipher, Store.Lookup(t.parser, "Newznab", "extra_newznabs"), t.runtime.newznabs)
            && ReadsAs(u.cipher, Store.Lookup(t.parser, "Torznab", "extra_torznabs"), t.runtime.torznabs)
  {
    Store.ProviderCommit(s, values, configure, env);
    var n := Write.PrepareField(u.cipher, u.newznabs, u.work).value;
    FieldReread(u.cipher, u.newznabs, u.work);
    Write.FieldStored(u.cipher, u.newznabs, u.work);
    FieldReread(u.cipher, u.torznabs, n.after);
  }

  /** The option text is that of a provider list. */
  predicate ReadsAs(c: Credentials.Cipher, text: Option<string>, ps: seq<Provider>) {
    && text.Some? && Codec.Parse(text.value).Some?
    && var d := Credentials.DecodeAll(c, Codec.Parse(text.value).value, map[]);
       d.Some? && d.value.entries == AsEntries(RereadAll(ps))
  }
}
