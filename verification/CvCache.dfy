/**
 The ComicVine response cache: a table of responses with expiry times that get, set,
 clear_expired and clear_all change under one lock, over whole runs of calls.

 Calls are listed in the order in which they hold the lock.  get reads the clock while it holds
 the lock; the other calls read it before they wait for the lock, so their time may be stale.
 A database error makes a call log and return without an effect.
 */
module CvCache {
  import opened Options

  type Data = string

  datatype Entry = Entry(data: Data, expiresAt: int)

  type Table = map<string, Entry>

  /** Where a database error strikes a get. */
  datatype GetFault = NoFault | ReadFails | DeleteFails

  datatype Call =
    | Get(url: string, getFault: GetFault)
    | Set(url: string, data: Data, ttl: int, stamp: int, failed: bool)
    | ClearExpired(stamp: int, failed: bool)
    | ClearAll(failed: bool)

  /** A call and the time at which it holds the lock. */
  datatype Event = Event(call: Call, now: int)

  datatype Result = Response(data: Option<Data>) | Done | Deleted(count: nat)

  // ---------------------------------------------------------------- the calls

  function Expired(t: Table, stamp: int): set<string> {
    set key | key in t && t[key].expiresAt < stamp
  }

  /** One call on the table; keys are hashed URLs. */
  function Step(t: Table, e: Event, hash: string -> string): (Table, Result) {
    match e.call
    case Get(url, fault) =>
      var key := hash(url);
      if fault.ReadFails? || key !in t then (t, Response(None))
      else if e.now < t[key].expiresAt then (t, Response(Some(t[key].data)))
      else (if fault.DeleteFails? then t else t - {key}, Response(None))
    case Set(url, data, ttl, stamp, failed) =>
      (if failed then t else t[hash(url) := Entry(data, stamp + ttl)], Done)
    case ClearExpired(stamp, failed) =>
      if failed then (t, Deleted(0)) else (t - Expired(t, stamp), Deleted(|Expired(t, stamp)|))
    case ClearAll(failed) =>
      if failed then (t, Deleted(0)) else (map[], Deleted(|t|))
  }

  function Run(t: Table, events: seq<Event>, hash: string -> string): Table {
    if events == [] then t else Step(Run(t, events[..|events| - 1], hash), events[|events| - 1], hash).0
  }

  /** The clock does not run backwards, and times read before waiting for the lock are not in the future. */
  predicate Timed(events: seq<Event>) {
    && (forall i, j :: 0 <= i < j < |events| ==> events[i].now <= events[j].now)
    && (forall i :: 0 <= i < |events| ==>
          match events[i].call
          case Set(_, _, _, stamp, _) => stamp <= events[i].now
          case ClearExpired(stamp, _) => stamp <= events[i].now
          case _ => true)
  }

  // ---------------------------------------------------------------- the timed map it refines

  /** The last successful set of a URL that no successful clear_all follows. */
  function Last(events: seq<Event>, url: string): Option<Entry> {
    if events == [] then None
    else
      var before := Last(events[..|events| - 1], url);
      match events[|events| - 1].call
      case Set(u, data, ttl, stamp, failed) => if u == url && !failed then Some(Entry(data, stamp + ttl)) else before
      case ClearAll(failed) => if failed then before else None
      case _ => before
  }

  /** The response a timed map gives: the last stored one, until it expires. */
  function Lookup(events: seq<Event>, url: string, now: int): Option<Data> {
    var last := Last(events, url);
    if last.Some? && now < last.value.expiresAt then Some(last.value.data) else None
  }

  ghost predicate Injective(hash: string -> string) {
    forall a, b :: hash(a) == hash(b) ==> a == b
  }

  /** The table holds, for each URL, the last entry, or nothing once that has expired. */
  predicate Agrees(t: Table, events: seq<Event>, url: string, hash: string -> string, clock: int) {
    var last := Last(events, url);
    if hash(url) in t then last == Some(t[hash(url)])
    else last.Some? ==> last.value.expiresAt <= clock
  }

  /** The last call of a run keeps the agreement. */
  lemma StepAgrees(t: Table, events: seq<Event>, url: string, hash: string -> string, clock: int)
    requires Injective(hash) && events != [] && events[|events| - 1].now <= clock
    requires var e := events[|events| - 1];
             && Agrees(t, events[..|events| - 1], url, hash, e.now)
             && (e.call.ClearExpired? ==> e.call.stamp <= e.now)
    ensures Agrees(Step(t, events[|events| - 1], hash).0, events, url, hash, clock)
  {
    var e := events[|events| - 1];
    if e.call.Get? || e.call.Set? {
      assert hash(e.call.url) == hash(url) ==> e.call.url == url;
    }
  }

  lemma {:induction false} RunAgrees(events: seq<Event>, hash: string -> string, url: string, clock: int)
    requires Injective(hash) && Timed(events)
    requires forall i :: 0 <= i < |events| ==> events[i].now <= clock
    ensures Agrees(Run(map[], events, hash), events, url, hash, clock)
  {
    if events != [] {
      var n := |events| - 1;
      var e := events[n];
      RunAgrees(events[..n], hash, url, e.now);
      StepAgrees(Run(map[], events[..n], hash), events, url, hash, clock);
    }
  }

  /**
   The cache is a timed map: after any run of calls, with any database errors, a get that can
   read returns the response of the last successful set not cleared since, as long as it has
   not expired, and nothing otherwise.
   */
  lemma GetIsLookup(events: seq<Event>, hash: string -> string, url: string, fault: GetFault, now: int)
    requires Injective(hash) && Timed(events + [Event(Get(url, fault), now)]) && !fault.ReadFails?
    ensures Step(Run(map[], events, hash), Event(Get(url, fault), now), hash).1 == Response(Lookup(events, url, now))
  {
    var all := events + [Event(Get(url, fault), now)];
    assert all[|events|].now == now;
    forall i | 0 <= i < |events| ensures events[i].now <= now {
      assert all[i] == events[i];
    }
    assert Timed(events) by {
      assert forall i :: 0 <= i < |events| ==> all[i] == events[i];
    }
    RunAgrees(events, hash, url, now);
  }

  predicate IsWrite(call: Call) {
    (call.Set? && !call.failed) || (call.ClearAll? && !call.failed)
  }

  /** The successful calls of set and clear_all. */
  function Writes(events: seq<Event>): seq<Event> {
    if events == [] then []
    else
      var e := events[|events| - 1];
      Writes(events[..|events| - 1]) + if IsWrite(e.call) then [e] else []
  }

  lemma {:induction false} LastOfWrites(events: seq<Event>, url: string)
    ensures Last(Writes(events), url) == Last(events, url)
  {
    if events != [] {
      var front := events[..|events| - 1];
      LastOfWrites(front, url);
      var e := events[|events| - 1];
      if IsWrite(e.call) {
        assert Writes(events)[..|Writes(events)| - 1] == Writes(front);
      } else {
        assert Writes(events) == Writes(front);
      }
    }
  }

  lemma TimedFront(events: seq<Event>)
    requires events != [] && Timed(events)
    ensures Timed(events[..|events| - 1])
    ensures forall i :: 0 <= i < |events| ==> events[i].now <= events[|events| - 1].now
  {
  }

  lemma TimedMore(events: seq<Event>, e: Event)
    requires Timed(events) && Timed([e]) && forall i :: 0 <= i < |events| ==> events[i].now <= e.now
    ensures Timed(events + [e])
  {
    assert [e][0] == e;
  }

  lemma TimedLast(events: seq<Event>)
    requires events != [] && Timed(events)
    ensures Timed([events[|events| - 1]])
  {
    var e := events[|events| - 1];
    assert forall i :: 0 <= i < 1 ==> [e][i] == e;
  }

  /** Leaving calls out leaves the clock monotone. */
  lemma {:induction false} WritesAreTimed(events: seq<Event>, clock: int)
    requires Timed(events) && forall i :: 0 <= i < |events| ==> events[i].now <= clock
    ensures Timed(Writes(events)) && forall i :: 0 <= i < |Writes(events)| ==> Writes(events)[i].now <= clock
  {
    if events != [] {
      var front, e := events[..|events| - 1], events[|events| - 1];
      TimedFront(events);
      TimedLast(events);
      WritesAreTimed(front, e.now);
      TimedMore(Writes(front), e);
      if IsWrite(e.call) {
        assert Writes(events) == Writes(front) + [e];
      } else {
        assert Writes(events) == Writes(front);
      }
    }
  }

  /**
   Reading with its deletions, clear_expired with a stale time, and every call that fails are
   never observed: a get answers as it would if only the successful sets and clears had happened.
   */
  lemma OnlyWritesMatter(events: seq<Event>, hash: string -> string, url: string, fault: GetFault, now: int)
    requires Injective(hash) && Timed(events + [Event(Get(url, fault), now)])
    ensures var get := Event(Get(url, fault), now);
            Step(Run(map[], events, hash), get, hash).1 == Step(Run(map[], Writes(events), hash), get, hash).1
  {
    if !fault.ReadFails? {
      var get := Event(Get(url, fault), now);
      var all := events + [get];
      assert all[..|all| - 1] == events && all[|events|] == get;
      TimedFront(all);
      TimedLast(all);
      forall i | 0 <= i < |events| ensures events[i].now <= now {
        assert all[i] == events[i];
      }
      WritesAreTimed(events, now);
      TimedMore(Writes(events), get);
      GetIsLookup(events, hash, url, fault, now);
      GetIsLookup(Writes(events), hash, url, fault, now);
      LastOfWrites(events, url);
    }
  }

  // ---------------------------------------------------------------- statistics

  /** The entries a get would still return. */
  function Live(t: Table, now: int): set<string> {
    set key | key in t && now < t[key].expiresAt
  }

  /** The entries that expire at this very second. */
  function ExpiringNow(t: Table, now: int): set<string> {
    set key | key in t && t[key].expiresAt == now
  }

  datatype Stats = Stats(total: nat, expired: nat, valid: int)

  function Statistics(t: Table, stamp: int): Stats {
    Stats(|t|, |Expired(t, stamp)|, |t| - |Expired(t, stamp)|)
  }

  /** An entry expiring now is counted as valid although a get would not return it; otherwise the count is right. */
  lemma ValidEntriesCount(t: Table, now: int)
    ensures Statistics(t, now).valid == |Live(t, now)| + |ExpiringNow(t, now)|
    ensures Statistics(t, now).valid == |Live(t, now)| <==> forall key :: key in t ==> t[key].expiresAt != now
  {
    assert t.Keys == Expired(t, now) + (Live(t, now) + ExpiringNow(t, now));
    assert Expired(t, now) !! (Live(t, now) + ExpiringNow(t, now));
    assert Live(t, now) !! ExpiringNow(t, now);
    if key :| key in t && t[key].expiresAt == now {
      assert key in ExpiringNow(t, now);
    } else {
      assert ExpiringNow(t, now) == {};
    }
  }

  /** One entry, expiring now: counted as valid, and no get returns it. */
  lemma ExpiringEntryCounts(url: string, data: Data, now: int, hash: string -> string)
    ensures var t := map[hash(url) := Entry(data, now)];
            Statistics(t, now).valid == 1 && Step(t, Event(Get(url, NoFault), now), hash).1 == Response(None)
  {
    var t := map[hash(url) := Entry(data, now)];
    assert Expired(t, now) == {} && |t| == 1;
  }

  /** clear_expired leaves exactly the live entries and those that expire at its time. */
  lemma ClearExpiredLeaves(t: Table, now: int, hash: string -> string)
    ensures var after := Step(t, Event(ClearExpired(now, false), now), hash).0;
            && after.Keys == Live(t, now) + ExpiringNow(t, now)
            && (forall key :: key in after ==> after[key] == t[key])
            && Statistics(after, now).expired == 0
  {
    var after := Step(t, Event(ClearExpired(now, false), now), hash).0;
    assert Expired(after, now) == {};
  }

  /** The table t without some of its entries, and with nothing else. */
  predicate Without(t: Table, after: Table, gone: set<string>) {
    after.Keys == t.Keys - gone && gone <= t.Keys && forall key :: key in after ==> after[key] == t[key]
  }

  /** A get removes the entry it finds expired, and no other. */
  lemma GetRemoves(t: Table, url: string, fault: GetFault, now: int, hash: string -> string)
    ensures var stale := fault.NoFault? && hash(url) in t && t[hash(url)].expiresAt <= now;
            Without(t, Step(t, Event(Get(url, fault), now), hash).0, if stale then {hash(url)} else {})
  {
  }

  /** The clearing calls report exactly what they remove, and a failed one removes nothing. */
  lemma ClearExpiredRemoves(t: Table, stamp: int, failed: bool, now: int, hash: string -> string)
    ensures var (after, result) := Step(t, Event(ClearExpired(stamp, failed), now), hash);
            && result.Deleted? && |t| == |after| + result.count
            && Without(t, after, if failed then {} else set key | key in t && t[key].expiresAt < stamp)
  {
    var gone := Expired(t, stamp);
    assert (t - gone).Keys == t.Keys - gone;
    assert |t.Keys - gone| == |t.Keys| - |gone|;
  }

  lemma ClearAllRemoves(t: Table, failed: bool, now: int, hash: string -> string)
    ensures var (after, result) := Step(t, Event(ClearAll(failed), now), hash);
            result.Deleted? && |t| == |after| + result.count && Without(t, after, if failed then {} else t.Keys)
  {
  }

  // ---------------------------------------------------------------- the cache object

  class CVCache {
    var table: Table
    const hash: string -> string

    constructor (hash: string -> string)
      ensures table == map[] && this.hash == hash
    {
      table := map[];
      this.hash := hash;
    }

    method Get(url: string, fault: GetFault, now: int) returns (response: Option<Data>)
      modifies this
      ensures (table, Response(response)) == Step(old(table), Event(Call.Get(url, fault), now), hash)
    {
      var key := hash(url);
      if fault.ReadFails? || key !in table {
        return None;
      }
      var Entry(data, expiresAt) := table[key];
      if now < expiresAt {
        return Some(data);
      }
      if !fault.DeleteFails? {
        table := table - {key};
      }
      return None;
    }

    method Set(url: string, data: Data, ttl: int, stamp: int, failed: bool, ghost now: int)
      modifies this
      ensures table == Step(old(table), Event(Call.Set(url, data, ttl, stamp, failed), now), hash).0
    {
      var expiresAt := stamp + ttl;
      if !failed {
        table := table[hash(url) := Entry(data, expiresAt)];
      }
    }

    method ClearExpired(stamp: int, failed: bool, ghost now: int) returns (count: nat)
      modifies this
      ensures (table, Deleted(count)) == Step(old(table), Event(Call.ClearExpired(stamp, failed), now), hash)
    {
      if failed {
        return 0;
      }
      var expired := Expired(table, stamp);
      table := table - expired;
      return |expired|;
    }

    method ClearAll(failed: bool, ghost now: int) returns (count: nat)
      modifies this
      ensures (table, Deleted(count)) == Step(old(table), Event(Call.ClearAll(failed), now), hash)
    {
      if failed {
        return 0;
      }
      count := |table|;
      table := map[];
    }

    method GetStats(stamp: int) returns (s: Stats)
      ensures s == Statistics(table, stamp) && s.total == s.expired + s.valid
      ensures s.valid == |Live(table, stamp)| + |ExpiringNow(table, stamp)|
    {
      var total, expired := |table|, |Expired(table, stamp)|;
      ValidEntriesCount(table, stamp);
      s := Stats(total, expired, total - expired);
    }
  }
}
