/** Publication of the master key: many processes, on one directory, each wanting the one key. */
module MasterKey {
  /*
   A process that finds no key generates one, writes it to a temporary file of its own, syncs
   it, and publishes it either by hard-linking (which fails if the name exists) or, where links
   are unsupported, by check-and-replace under a lock.  The protocol is modelled as a state
   machine whose events interleave in any order; a process may fail or crash at any point, and
   the machine may lose power, which forgets a directory entry that was not synced.
   */
  import opened Options

  type Key = seq<int>

  /** Where a process is inside _load_or_create_master_key. */
  datatype Pc =
    | Idle
    | Missing                     // FileNotFoundError on the first read
    | Writing(key: Key)           // temporary file open
    | Ready(key: Key)             // temporary file complete and synced
    | Linked(key: Key)            // os.link succeeded
    | LockWanted(key: Key)
    | Locked(key: Key)
    | Checked(key: Key)           // under the lock, the key path did not exist
    | Replaced(key: Key)          // under the lock, os.replace done
    | Lost                        // _publish_master_key returned False
    | Ended                       // the call returned or raised
    | Crashed

  datatype Process = Process(pc: Pc, temp: Option<Key>, cached: Option<Key>)

  /** A key some call returned, and whether that call had created it. */
  datatype Answer = Answer(process: nat, key: Key, created: bool)

  /**
   The shared directory and the processes.  durable: the directory entry of the key file is
   synced; lost: a power loss has dropped the entry of a returned key; answers: every key
   returned so far.
   */
  datatype State = State(
    keyFile: Option<Key>,
    durable: bool,
    lost: bool,
    lock: Option<nat>,
    links: seq<bool>,
    procs: seq<Process>,
    answers: seq<Answer>)

  datatype Event =
    | Load(p: nat, create: bool)
    | Generate(p: nat, key: Key)
    | WriteByte(p: nat)
    | SyncTemp(p: nat)
    | Publish(p: nat)
    | TakeLock(p: nat)
    | CheckPath(p: nat)
    | Replace(p: nat)
    | Finish(p: nat)              // chmod and directory sync succeed, the key is returned
    | Reload(p: nat)
    | Fail(p: nat)
    | Crash(p: nat)
    | Again(p: nat)               // a new call, or a restart after a crash
    | PowerLoss(survives: bool)

  function Initial(links: seq<bool>): State {
    State(None, false, false, None, links, seq(|links|, i => Process(Idle, None, None)), [])
  }

  function Goto(s: State, p: nat, pc: Pc): State
    requires p < |s.procs|
  {
    s.(procs := s.procs[p := s.procs[p].(pc := pc)])
  }

  /** The process leaves its call: the temporary file is removed and a held lock released. */
  function Leave(s: State, p: nat, pc: Pc): State
    requires p < |s.procs|
  {
    s.(procs := s.procs[p := s.procs[p].(pc := pc, temp := None)],
       lock := if s.lock == Some(p) then None else s.lock)
  }

  /** The call returns a key, which _get_fernet caches. */
  function Return(s: State, p: nat, key: Key, created: bool): State
    requires p < |s.procs|
  {
    var t := Leave(s, p, Ended);
    t.(procs := t.procs[p := t.procs[p].(cached := Some(key))], answers := s.answers + [Answer(p, key, created)])
  }

  /** The power fails while the entry of the key file, whose key some call has returned, is not synced. */
  predicate DropsReturnedKey(s: State, e: Event) {
    e.PowerLoss? && s.keyFile.Some? && !s.durable && !e.survives && s.answers != []
  }

  /** One event; an event that is not possible in the state changes nothing. */
  function Step(s: State, e: Event): State
    requires |s.links| == |s.procs|
    ensures |Step(s, e).procs| == |s.procs| && Step(s, e).links == s.links
  {
    if e.PowerLoss? then
      var gone := s.keyFile.Some? && !s.durable && !e.survives;
      s.(keyFile := if gone then None else s.keyFile,
         durable := s.keyFile.Some? && !gone,
         lost := s.lost || DropsReturnedKey(s, e),
         lock := None,
         procs := seq(|s.procs|, i => Process(Crashed, None, None)))
    else if e.p >= |s.procs| then s
    else
      var p := e.p;
      var me := s.procs[p];
      match e
      case Load(_, create) =>
        if !me.pc.Idle? then s
        else if me.cached.Some? then
          if s.keyFile.Some? then Return(s, p, me.cached.value, false) else Goto(s, p, Ended)
        else if s.keyFile.Some? then Return(s, p, s.keyFile.value, false)
        else Goto(s, p, if create then Missing else Ended)
      case Generate(_, key) =>
        if !me.pc.Missing? || key == [] then s
        else s.(procs := s.procs[p := me.(pc := Writing(key), temp := Some([]))])
      case WriteByte(_) =>
        if me.pc.Writing? && me.temp.Some? && |me.temp.value| < |me.pc.key| then
          s.(procs := s.procs[p := me.(temp := Some(me.temp.value + [me.pc.key[|me.temp.value|]]))])
        else s
      case SyncTemp(_) =>
        if me.pc.Writing? && me.temp.Some? && |me.temp.value| == |me.pc.key| then Goto(s, p, Ready(me.pc.key)) else s
      case Publish(_) =>
        if !me.pc.Ready? || me.temp.None? then s
        else if !s.links[p] then Goto(s, p, LockWanted(me.pc.key))
        else if s.keyFile.Some? then Leave(s, p, Lost)
        else Goto(s.(keyFile := me.temp, durable := false), p, Linked(me.pc.key))
      case TakeLock(_) =>
        if me.pc.LockWanted? && s.lock.None? then Goto(s.(lock := Some(p)), p, Locked(me.pc.key)) else s
      case CheckPath(_) =>
        if !me.pc.Locked? then s
        else if s.keyFile.Some? then Leave(s, p, Lost)
        else Goto(s, p, Checked(me.pc.key))
      case Replace(_) =>
        if me.pc.Checked? && me.temp.Some? then
          Goto(s.(keyFile := me.temp, durable := false), p, Replaced(me.pc.key))
        else s
      case Finish(_) =>
        if me.pc.Linked? || me.pc.Replaced? then Return(s.(durable := true), p, me.pc.key, true) else s
      case Reload(_) =>
        if !me.pc.Lost? then s
        else if s.keyFile.Some? then Return(s, p, s.keyFile.value, false)
        else Goto(s, p, Ended)
      case Fail(_) => if me.pc.Crashed? then s else Leave(s, p, Ended)
      case Crash(_) =>
        var t := Leave(s, p, Crashed);
        t.(procs := t.procs[p := Process(Crashed, None, None)])
      case Again(_) => if me.pc.Ended? || me.pc.Crashed? then Goto(s, p, Idle) else s
  }

  function Run(s: State, events: seq<Event>): State
    requires |s.links| == |s.procs|
    ensures |Run(s, events).procs| == |s.procs| && Run(s, events).links == s.links
    decreases |events|
  {
    if events == [] then s else Run(Step(s, events[0]), events[1..])
  }

  // ---------------------------------------------------------------- invariant

  predicate HoldsLock(pc: Pc) {
    pc.Locked? || pc.Checked? || pc.Replaced?
  }

  predicate HasFullTemp(pc: Pc) {
    pc.Ready? || pc.LockWanted? || pc.Locked? || pc.Checked?
  }

  /** All processes publish the same way, as when link support is a property of the file system. */
  predicate Uniform(links: seq<bool>) {
    forall p, q :: 0 <= p < |links| && 0 <= q < |links| ==> links[p] == links[q]
  }

  predicate GoodProcess(s: State, p: nat)
    requires p < |s.procs| == |s.links|
  {
    var me := s.procs[p];
    && (me.pc.Writing? ==> me.pc.key != [] && me.temp.Some? && me.temp.value <= me.pc.key)
    && (HasFullTemp(me.pc) ==> me.pc.key != [] && me.temp == Some(me.pc.key))
    && (me.pc.Linked? || me.pc.Replaced? ==> s.keyFile == Some(me.pc.key))
    && (me.cached.Some? ==> s.keyFile == me.cached)
    && (HoldsLock(me.pc) ==> s.lock == Some(p))
    && (me.pc.Checked? ==> s.keyFile.None?)
    && (HoldsLock(me.pc) || me.pc.LockWanted? ==> !s.links[p])
  }

  predicate Inv(s: State) {
    && |s.procs| == |s.links|
    && Uniform(s.links)
    && (forall p :: 0 <= p < |s.procs| ==> GoodProcess(s, p))
    && (s.keyFile.Some? ==> s.keyFile.value != [])
    && (s.durable ==> s.keyFile.Some?)
    && (forall i :: 0 <= i < |s.answers| && s.answers[i].created ==> s.durable && s.keyFile == Some(s.answers[i].key))
    && (!s.lost ==> forall i :: 0 <= i < |s.answers| ==> s.keyFile == Some(s.answers[i].key))
  }

  /** A step that changes one process, and at most hands over the lock. */
  lemma LocalStep(s: State, t: State, p: nat)
    requires Inv(s) && p < |s.procs| == |t.procs|
    requires t == s.(procs := t.procs, lock := t.lock) && t.procs == s.procs[p := t.procs[p]]
    requires t.lock == s.lock || s.lock.None? || s.lock == Some(p)
    requires GoodProcess(t, p)
    ensures Inv(t)
  {
    forall q | 0 <= q < |t.procs| ensures GoodProcess(t, q) {
      assert GoodProcess(s, q);
    }
  }

  /** The key file appears: the process that made it appear held it complete. */
  lemma PublishStep(s: State, t: State, p: nat, key: Key)
    requires Inv(s) && p < |s.procs| == |t.procs| && s.keyFile.None? && key != []
    requires t == s.(procs := t.procs, keyFile := Some(key), durable := false) && t.procs == s.procs[p := t.procs[p]]
    requires GoodProcess(t, p)
    requires s.links[p] || s.lock == Some(p)
    ensures Inv(t)
  {
    forall q | 0 <= q < |t.procs| ensures GoodProcess(t, q) {
      assert GoodProcess(s, q);
    }
  }

  /** A key is returned: it is the one in the file. */
  lemma ReturnStep(s: State, p: nat, key: Key, created: bool)
    requires Inv(s) && p < |s.procs| && s.keyFile == Some(key) && (created ==> s.durable)
    ensures Inv(Return(s, p, key, created))
  {
    var t := Return(s, p, key, created);
    assert GoodProcess(s, p);
    forall q | 0 <= q < |t.procs| ensures GoodProcess(t, q) {
      assert GoodProcess(s, q);
    }
  }

  lemma LeaveStep(s: State, p: nat, pc: Pc)
    requires Inv(s) && p < |s.procs| && (pc.Lost? || pc.Ended?)
    ensures Inv(Leave(s, p, pc))
  {
    assert GoodProcess(s, p);
    LocalStep(s, Leave(s, p, pc), p);
  }

  predicate Publishes(e: Event) {
    e.Publish? || e.CheckPath? || e.Replace? || e.Finish?
  }

  lemma InvPublication(s: State, e: Event)
    requires Inv(s) && Publishes(e) && e.p < |s.procs|
    ensures Inv(Step(s, e))
  {
    var p := e.p;
    var me := s.procs[p];
    assert GoodProcess(s, p);
    match e
    case Publish(_) =>
      if me.pc.Ready? && s.links[p] {
        if s.keyFile.Some? { LeaveStep(s, p, Lost); } else { PublishStep(s, Step(s, e), p, me.pc.key); }
      } else {
        LocalStep(s, Step(s, e), p);
      }
    case CheckPath(_) =>
      if me.pc.Locked? && s.keyFile.Some? { LeaveStep(s, p, Lost); } else { LocalStep(s, Step(s, e), p); }
    case Replace(_) =>
      if me.pc.Checked? { PublishStep(s, Step(s, e), p, me.pc.key); }
    case Finish(_) =>
      if me.pc.Linked? || me.pc.Replaced? {
        SyncDirectory(s);
        ReturnStep(s.(durable := true), p, me.pc.key, true);
      }
  }

  lemma InvOther(s: State, e: Event)
    requires Inv(s) && !Publishes(e) && !e.PowerLoss? && e.p < |s.procs|
    ensures Inv(Step(s, e))
  {
    var p := e.p;
    var me := s.procs[p];
    assert GoodProcess(s, p);
    if e.Load? && me.pc.Idle? && s.keyFile.Some? {
      ReturnStep(s, p, s.keyFile.value, false);
    } else if e.Reload? && me.pc.Lost? && s.keyFile.Some? {
      ReturnStep(s, p, s.keyFile.value, false);
    } else if e.Fail? && !me.pc.Crashed? {
      LeaveStep(s, p, Ended);
    } else {
      if e.SyncTemp? && me.pc.Writing? && |me.temp.value| == |me.pc.key| {
        assert me.temp.value == me.pc.key;
      }
      LocalStep(s, Step(s, e), p);
    }
  }

  lemma InvStep(s: State, e: Event)
    requires Inv(s)
    ensures Inv(Step(s, e))
  {
    if !e.PowerLoss? && e.p < |s.procs| {
      if Publishes(e) { InvPublication(s, e); } else { InvOther(s, e); }
    }
  }

  lemma SyncDirectory(s: State)
    requires Inv(s) && s.keyFile.Some?
    ensures Inv(s.(durable := true))
  {
    var t := s.(durable := true);
    forall q | 0 <= q < |t.procs| ensures GoodProcess(t, q) {
      assert GoodProcess(s, q);
    }
  }

  lemma {:induction false} InvRun(s: State, events: seq<Event>)
    requires Inv(s)
    ensures Inv(Run(s, events))
    decreases |events|
  {
    if events != [] {
      InvStep(s, events[0]);
      InvRun(Step(s, events[0]), events[1..]);
    }
  }

  // ---------------------------------------------------------------- agreement

  predicate NoPowerLoss(events: seq<Event>) {
    forall i :: 0 <= i < |events| ==> !events[i].PowerLoss?
  }

  /** The key file, once present, never changes while the power stays on; once synced, it never changes at all. */
  lemma KeyStableStep(s: State, e: Event)
    requires Inv(s) && s.keyFile.Some?
    ensures Step(s, e).keyFile == s.keyFile || (e.PowerLoss? && !s.durable)
    ensures s.durable ==> Step(s, e).durable
  {
    if !e.PowerLoss? && e.p < |s.procs| {
      assert GoodProcess(s, e.p);
    }
  }

  lemma {:induction false} KeyStable(s: State, events: seq<Event>)
    requires Inv(s) && s.keyFile.Some? && (NoPowerLoss(events) || s.durable)
    ensures Run(s, events).keyFile == s.keyFile
    decreases |events|
  {
    if events != [] {
      InvStep(s, events[0]);
      KeyStableStep(s, events[0]);
      KeyStable(Step(s, events[0]), events[1..]);
    }
  }

  /** Somewhere in the run a power loss drops the entry of a key that some call has returned. */
  predicate Loses(s: State, events: seq<Event>)
    requires |s.links| == |s.procs|
  {
    exists n :: 0 <= n < |events| && DropsReturnedKey(Run(s, events[..n]), events[n])
  }

  lemma LosesStep(s: State, events: seq<Event>)
    requires |s.links| == |s.procs| && events != []
    ensures Loses(s, events) <==> DropsReturnedKey(s, events[0]) || Loses(Step(s, events[0]), events[1..])
  {
    var rest := events[1..];
    assert Run(s, events[..0]) == s;
    forall n | 0 <= n < |rest| ensures Run(s, events[..n + 1]) == Run(Step(s, events[0]), rest[..n]) {
      assert events[..n + 1][1..] == rest[..n];
    }
    if Loses(s, events) && !DropsReturnedKey(s, events[0]) {
      var n :| 0 <= n < |events| && DropsReturnedKey(Run(s, events[..n]), events[n]);
      assert rest[n - 1] == events[n] && Run(s, events[..n]) == Run(Step(s, events[0]), rest[..n - 1]);
    }
    if Loses(Step(s, events[0]), rest) {
      var n :| 0 <= n < |rest| && DropsReturnedKey(Run(Step(s, events[0]), rest[..n]), rest[n]);
      assert events[n + 1] == rest[n];
    }
  }

  lemma LostStep(s: State, e: Event)
    requires |s.links| == |s.procs|
    ensures Step(s, e).lost <==> s.lost || DropsReturnedKey(s, e)
  {
  }

  lemma {:induction false} LostMeansLoses(s: State, events: seq<Event>)
    requires |s.links| == |s.procs|
    ensures Run(s, events).lost <==> s.lost || Loses(s, events)
    decreases |events|
  {
    if events != [] {
      LosesStep(s, events);
      LostStep(s, events[0]);
      LostMeansLoses(Step(s, events[0]), events[1..]);
    }
  }

  lemma InitialInv(links: seq<bool>)
    requires Uniform(links)
    ensures Inv(Initial(links))
  {
    var s := Initial(links);
    forall p | 0 <= p < |s.procs| ensures GoodProcess(s, p) {
    }
  }

  /** Every key any call has returned is the complete key in the file. */
  predicate Agrees(s: State) {
    forall i :: 0 <= i < |s.answers| ==> s.answers[i].key != [] && s.keyFile == Some(s.answers[i].key)
  }

  lemma KeysNonempty(s: State)
    requires Inv(s) && !s.lost
    ensures Agrees(s)
  {
  }

  /**
   Key agreement: from an empty directory with uniform link support, after any interleaving of
   any number of processes with failures, crashes and power losses, unless a power loss has
   dropped the entry of a returned key.
   */
  lemma KeyAgreement(links: seq<bool>, events: seq<Event>)
    requires Uniform(links) && !Loses(Initial(links), events)
    ensures Agrees(Run(Initial(links), events))
  {
    InitialInv(links);
    InvRun(Initial(links), events);
    LostMeansLoses(Initial(links), events);
    KeysNonempty(Run(Initial(links), events));
  }

  lemma RunFirst(s: State, e: Event, rest: seq<Event>)
    requires |s.links| == |s.procs|
    ensures Run(s, [e] + rest) == Run(Step(s, e), rest)
  {
    assert ([e] + rest)[1..] == rest;
  }

  lemma {:induction false} RunTwice(s: State, first: seq<Event>, second: seq<Event>)
    requires |s.links| == |s.procs|
    ensures Run(s, first + second) == Run(Run(s, first), second)
    decreases |first|
  {
    if first == [] {
      assert first + second == second;
    } else {
      assert (first + second)[1..] == first[1..] + second;
      RunTwice(Step(s, first[0]), first[1..], second);
    }
  }

  lemma RunOneMore(s: State, events: seq<Event>, n: nat)
    requires |s.links| == |s.procs| && n < |events|
    ensures Run(s, events[..n + 1]) == Step(Run(s, events[..n]), events[n])
  {
    assert events[..n + 1] == events[..n] + ([events[n]] + []);
    RunTwice(s, events[..n], [events[n]] + []);
    RunFirst(Run(s, events[..n]), events[n], []);
    RunNothing(Step(Run(s, events[..n]), events[n]));
  }

  lemma RunNothing(s: State)
    requires |s.links| == |s.procs|
    ensures Run(s, []) == s
  {
  }

  /** And that is the only way: the keys agree at every moment of a run exactly if nothing returned is dropped. */
  lemma AgreementThroughout(links: seq<bool>, events: seq<Event>)
    requires Uniform(links)
    ensures (forall n :: 0 <= n <= |events| ==> Agrees(Run(Initial(links), events[..n])))
            <==> !Loses(Initial(links), events)
  {
    var s := Initial(links);
    if Loses(s, events) {
      var n :| 0 <= n < |events| && DropsReturnedKey(Run(s, events[..n]), events[n]);
      RunOneMore(s, events, n);
      var t := Run(s, events[..n + 1]);
      assert t.keyFile.None? && t.answers != [];
      assert !Agrees(t) by { assert t.keyFile != Some(t.answers[0].key); }
    } else {
      forall n | 0 <= n <= |events| ensures Agrees(Run(s, events[..n])) {
        LosesPrefix(s, events, n);
        KeyAgreement(links, events[..n]);
      }
    }
  }

  lemma LosesPrefix(s: State, events: seq<Event>, n: nat)
    requires |s.links| == |s.procs| && n <= |events| && !Loses(s, events)
    ensures !Loses(s, events[..n])
  {
    forall m | 0 <= m < n ensures !DropsReturnedKey(Run(s, events[..n][..m]), events[..n][m]) {
      assert events[..n][..m] == events[..m];
    }
  }

  /** Every key returned by the call that created it is in the file for good. */
  predicate CreatedKept(s: State) {
    forall i :: 0 <= i < |s.answers| && s.answers[i].created ==> s.durable && s.keyFile == Some(s.answers[i].key)
  }

  /** Keys returned by the calls that created them agree even across power losses. */
  lemma CreatedKeysSurvivePowerLoss(links: seq<bool>, events: seq<Event>)
    requires Uniform(links)
    ensures CreatedKept(Run(Initial(links), events))
  {
    InitialInv(links);
    InvRun(Initial(links), events);
  }

  // ---------------------------------------------------------------- what is left behind

  predicate Resting(pc: Pc) {
    pc.Idle? || pc.Missing? || pc.Lost? || pc.Ended? || pc.Crashed?
  }

  /** The lock is free or held by a process inside the critical section, and no finished call keeps a file. */
  predicate Tidy(s: State) {
    && (s.lock.Some? ==> s.lock.value < |s.procs| && HoldsLock(s.procs[s.lock.value].pc))
    && forall p :: 0 <= p < |s.procs| && Resting(s.procs[p].pc) ==> s.procs[p].temp.None?
  }

  /** The step changes process p, and at most takes or frees the lock for it. */
  predicate TidyFor(s: State, t: State, p: nat)
    requires p < |s.procs| == |t.procs|
  {
    && t.procs == s.procs[p := t.procs[p]]
    && (t.lock == s.lock || t.lock.None? || t.lock == Some(p))
    && (t.lock == Some(p) ==> HoldsLock(t.procs[p].pc))
    && (Resting(t.procs[p].pc) ==> t.procs[p].temp.None?)
  }

  lemma TidyAfter(s: State, t: State, p: nat)
    requires Tidy(s) && p < |s.procs| == |t.procs| && TidyFor(s, t, p)
    ensures Tidy(t)
  {
  }

  lemma TidyPublication(s: State, e: Event)
    requires |s.links| == |s.procs| && Tidy(s) && Publishes(e) && e.p < |s.procs|
    ensures TidyFor(s, Step(s, e), e.p)
  {
  }

  predicate Prepares(e: Event) {
    e.Generate? || e.WriteByte? || e.SyncTemp? || e.TakeLock?
  }

  lemma TidyPreparation(s: State, e: Event)
    requires |s.links| == |s.procs| && Tidy(s) && Prepares(e) && e.p < |s.procs|
    ensures TidyFor(s, Step(s, e), e.p)
  {
  }

  lemma TidyReading(s: State, e: Event)
    requires |s.links| == |s.procs| && Tidy(s) && (e.Load? || e.Reload?) && e.p < |s.procs|
    ensures TidyFor(s, Step(s, e), e.p)
  {
  }

  lemma TidyEnding(s: State, e: Event)
    requires |s.links| == |s.procs| && Tidy(s) && (e.Fail? || e.Crash? || e.Again?) && e.p < |s.procs|
    ensures TidyFor(s, Step(s, e), e.p)
  {
  }

  lemma TidyStep(s: State, e: Event)
    requires |s.links| == |s.procs| && Tidy(s)
    ensures Tidy(Step(s, e))
  {
    if !e.PowerLoss? && e.p < |s.procs| {
      if Publishes(e) {
        TidyPublication(s, e);
      } else if Prepares(e) {
        TidyPreparation(s, e);
      } else if e.Load? || e.Reload? {
        TidyReading(s, e);
      } else {
        TidyEnding(s, e);
      }
      TidyAfter(s, Step(s, e), e.p);
    }
  }

  /**
   Whatever fails or crashes, no lock stays behind without a process that is using it, and no
   temporary file without one that is writing or publishing it.
   */
  lemma {:induction false} NothingLeftBehind(s: State, events: seq<Event>)
    requires |s.links| == |s.procs| && Tidy(s)
    ensures Tidy(Run(s, events))
    decreases |events|
  {
    if events != [] {
      TidyStep(s, events[0]);
      NothingLeftBehind(Step(s, events[0]), events[1..]);
    }
  }

  /** No call may create a key. */
  predicate OnlyReaders(events: seq<Event>) {
    forall i :: 0 <= i < |events| && events[i].Load? ==> !events[i].create
  }

  /** No process is past the first read, and none has a key. */
  predicate NoneCreating(s: State) {
    s.keyFile.None? && s.answers == []
    && forall p :: 0 <= p < |s.procs| ==>
         (s.procs[p].pc.Idle? || s.procs[p].pc.Ended? || s.procs[p].pc.Crashed?) && s.procs[p].cached.None?
  }

  /** Calls that may not create the key never do, however many there are, and get none. */
  lemma {:induction false} ReadersCreateNothing(s: State, events: seq<Event>)
    requires |s.links| == |s.procs| && NoneCreating(s) && OnlyReaders(events)
    ensures NoneCreating(Run(s, events))
    decreases |events|
  {
    if events != [] {
      assert events[0].Load? ==> !events[0].create;
      assert NoneCreating(Step(s, events[0]));
      ReadersCreateNothing(Step(s, events[0]), events[1..]);
    }
  }

  // ---------------------------------------------------------------- every call gets the key

  /** The call of p has returned this key and is over. */
  predicate Got(s: State, t: State, p: nat, key: Key, created: bool)
    requires p < |t.procs|
  {
    && t.answers == s.answers + [Answer(p, key, created)] && t.keyFile == s.keyFile
    && t.procs[p] == Process(Ended, None, Some(key))
  }

  /** The process that lost the race gets the key of the one that won. */
  lemma LoserGetsKey(s: State, p: nat)
    requires Inv(s) && p < |s.procs| && s.procs[p].pc.Lost? && s.keyFile.Some?
    ensures Got(s, Step(s, Reload(p)), p, s.keyFile.value, false)
  {
  }

  /** A process that finds the key file gets its key, whether it had one in its cache or not. */
  lemma LoaderGetsKey(s: State, p: nat, create: bool)
    requires Inv(s) && p < |s.procs| && s.procs[p].pc.Idle? && s.keyFile.Some?
    ensures Got(s, Step(s, Load(p, create)), p, s.keyFile.value, false)
  {
    assert GoodProcess(s, p);
  }

  /** The process that published gets its own key, and the entry of the key file is synced. */
  lemma PublisherGetsKey(s: State, p: nat)
    requires Inv(s) && p < |s.procs| && (s.procs[p].pc.Linked? || s.procs[p].pc.Replaced?)
    ensures Got(s, Step(s, Finish(p)), p, s.procs[p].pc.key, true) && Step(s, Finish(p)).durable
    ensures s.keyFile == Some(s.procs[p].pc.key)
  {
    assert GoodProcess(s, p);
  }

  /** A complete temporary file is published by a link if there is no key file, and is given up if there is one. */
  lemma LinkPublishes(s: State, p: nat)
    requires Inv(s) && p < |s.procs| && s.procs[p].pc.Ready? && s.links[p]
    ensures var t := Step(s, Publish(p));
            if s.keyFile.None? then t.keyFile == Some(s.procs[p].pc.key) && t.procs[p].pc == Linked(s.procs[p].pc.key)
            else t.keyFile == s.keyFile && t.procs[p].pc.Lost?
  {
    assert GoodProcess(s, p);
  }

  /** Under the lock it is published by a replacement, likewise. */
  lemma LockPublishes(s: State, p: nat)
    requires Inv(s) && p < |s.procs| && s.procs[p].pc.Locked?
    ensures var t := Step(s, CheckPath(p));
            if s.keyFile.None? then
              t.procs[p].pc.Checked? && Step(t, Replace(p)).keyFile == Some(s.procs[p].pc.key)
              && Step(t, Replace(p)).procs[p].pc == Replaced(s.procs[p].pc.key)
            else t.keyFile == s.keyFile && t.procs[p].pc.Lost? && t.lock.None?
  {
    assert GoodProcess(s, p);
  }

  // ---------------------------------------------------------------- why the hypotheses are needed

  /** The events by which process p writes and syncs the one-byte key [k]. */
  function Prepare(p: nat, k: int): seq<Event> {
    [Load(p, true)] + ([Generate(p, [k])] + ([WriteByte(p)] + ([SyncTemp(p)] + [])))
  }

  lemma PrepareReaches(s: State, p: nat, k: int)
    requires |s.links| == |s.procs| && p < |s.procs| && s.procs[p] == Process(Idle, None, None) && s.keyFile.None?
    ensures Run(s, Prepare(p, k)) == s.(procs := s.procs[p := Process(Ready([k]), Some([k]), None)])
  {
    var t := Step(s, Load(p, true));
    var u := Step(t, Generate(p, [k]));
    var v := Step(u, WriteByte(p));
    assert [] + [k] == [k];
    RunFirst(s, Load(p, true), [Generate(p, [k])] + ([WriteByte(p)] + ([SyncTemp(p)] + [])));
    RunFirst(t, Generate(p, [k]), [WriteByte(p)] + ([SyncTemp(p)] + []));
    RunFirst(u, WriteByte(p), [SyncTemp(p)] + []);
    RunFirst(v, SyncTemp(p), []);
  }

  function LockAndCheck(p: nat): seq<Event> {
    [Publish(p)] + ([TakeLock(p)] + ([CheckPath(p)] + []))
  }

  function LinkThenReplace(p: nat, q: nat): seq<Event> {
    [Publish(q)] + ([Finish(q)] + ([Replace(p)] + []))
  }

  /** Process p finds no key under the lock ... */
  lemma CheckUnderLock(s: State, p: nat)
    requires |s.links| == |s.procs| && p < |s.procs| && !s.links[p] && s.keyFile.None? && s.lock.None?
    requires s.procs[p] == Process(Ready([1]), Some([1]), None)
    ensures Run(s, LockAndCheck(p))
         == s.(lock := Some(p), procs := s.procs[p := Process(Checked([1]), Some([1]), None)])
  {
    RunFirst(s, Publish(p), [TakeLock(p)] + ([CheckPath(p)] + []));
    var t := Step(s, Publish(p));
    RunFirst(t, TakeLock(p), [CheckPath(p)] + []);
    var u := Step(t, TakeLock(p));
    RunFirst(u, CheckPath(p), []);
    assert Step(u, CheckPath(p)).procs == s.procs[p := Process(Checked([1]), Some([1]), None)];
  }

  /** ... process q links and returns its own, and process p replaces it. */
  lemma ReplaceAfterLink(s: State, p: nat, q: nat)
    requires |s.links| == |s.procs| && p < |s.procs| && q < |s.procs| && p != q && s.links[q]
    requires s.keyFile.None? && s.answers == []
    requires s.procs[p] == Process(Checked([1]), Some([1]), None)
    requires s.procs[q] == Process(Ready([2]), Some([2]), None)
    ensures var t := Run(s, LinkThenReplace(p, q)); t.answers == [Answer(q, [2], true)] && t.keyFile == Some([1])
  {
    RunFirst(s, Publish(q), [Finish(q)] + ([Replace(p)] + []));
    var t := Step(s, Publish(q));
    RunFirst(t, Finish(q), [Replace(p)] + []);
    RunFirst(Step(t, Finish(q)), Replace(p), []);
  }

  function MixedRun(p: nat, q: nat): seq<Event> {
    Prepare(p, 1) + (LockAndCheck(p) + (Prepare(q, 2) + LinkThenReplace(p, q)))
  }

  lemma ReachesBothPrepared(s: State, p: nat, q: nat)
    requires s == Initial(s.links) && p < |s.links| && q < |s.links| && !s.links[p] && s.links[q]
    ensures var u := Run(Run(Run(s, Prepare(p, 1)), LockAndCheck(p)), Prepare(q, 2));
            && u.links == s.links && u.keyFile.None? && u.answers == []
            && u.procs[p] == Process(Checked([1]), Some([1]), None)
            && u.procs[q] == Process(Ready([2]), Some([2]), None)
  {
    PrepareReaches(s, p, 1);
    var t := Run(s, Prepare(p, 1));
    CheckUnderLock(t, p);
    var u := Run(t, LockAndCheck(p));
    PrepareReaches(u, q, 2);
  }

  /**
   With link support that is not uniform, a process without it replaces, under the lock, a key
   that another process has linked and returned.
   */
  lemma MixedSupportBreaksAgreement(links: seq<bool>, p: nat, q: nat)
    requires p < |links| && q < |links| && !links[p] && links[q]
    ensures var s := Run(Initial(links), MixedRun(p, q));
            s.answers == [Answer(q, [2], true)] && s.keyFile == Some([1])
  {
    var s := Initial(links);
    RunInFour(s, Prepare(p, 1), LockAndCheck(p), Prepare(q, 2), LinkThenReplace(p, q));
    ReachesBothPrepared(s, p, q);
    ReplaceAfterLink(Run(Run(Run(s, Prepare(p, 1)), LockAndCheck(p)), Prepare(q, 2)), p, q);
  }

  lemma RunInFour(s: State, a: seq<Event>, b: seq<Event>, c: seq<Event>, d: seq<Event>)
    requires |s.links| == |s.procs|
    ensures Run(s, a + (b + (c + d))) == Run(Run(Run(Run(s, a), b), c), d)
  {
    RunTwice(s, a, b + (c + d));
    RunTwice(Run(s, a), b, c + d);
    RunTwice(Run(Run(s, a), b), c, d);
  }

  lemma MixedRunIsPowered(p: nat, q: nat)
    ensures NoPowerLoss(MixedRun(p, q))
  {
    assert NoPowerLoss(Prepare(p, 1)) && NoPowerLoss(LockAndCheck(p));
    assert NoPowerLoss(Prepare(q, 2)) && NoPowerLoss(LinkThenReplace(p, q));
    assert NoPowerLoss(Prepare(q, 2) + LinkThenReplace(p, q));
    assert NoPowerLoss(LockAndCheck(p) + (Prepare(q, 2) + LinkThenReplace(p, q)));
  }

  /**
   Whatever the number of processes, every run without power loss agrees exactly if link support
   is uniform; and exactly then every run, power losses included, keeps the keys it has created.
   */
  lemma AgreementNeedsUniformLinks(links: seq<bool>)
    ensures (forall events :: NoPowerLoss(events) ==> Agrees(Run(Initial(links), events))) <==> Uniform(links)
    ensures (forall events: seq<Event> :: CreatedKept(Run(Initial(links), events))) <==> Uniform(links)
  {
    if Uniform(links) {
      forall events | NoPowerLoss(events) ensures Agrees(Run(Initial(links), events)) {
        KeyAgreement(links, events);
      }
      forall events: seq<Event> ensures CreatedKept(Run(Initial(links), events)) {
        CreatedKeysSurvivePowerLoss(links, events);
      }
    } else {
      var p, q :| 0 <= p < |links| && 0 <= q < |links| && links[p] != links[q];
      var i, j := if links[p] then q else p, if links[p] then p else q;
      MixedSupportBreaksAgreement(links, i, j);
      MixedRunIsPowered(i, j);
      var s := Run(Initial(links), MixedRun(i, j));
      assert s.answers[0].created && s.keyFile != Some(s.answers[0].key);
      assert !Agrees(s) && !CreatedKept(s);
    }
  }

  /** A key that was loaded, not created, can be lost with the power: its entry need not be synced yet. */
  lemma LoadedKeyCanBeLost() returns (events: seq<Event>)
    ensures var s := Run(Initial([true, true]), events);
            s.answers == [Answer(1, [1], false)] && s.keyFile.None?
  {
    var s := Initial([true, true]);
    var tail := [Publish(0)] + ([Load(1, true)] + ([PowerLoss(false)] + []));
    RunTwice(s, Prepare(0, 1), tail);
    PrepareReaches(s, 0, 1);
    LoadedThenLost(Run(s, Prepare(0, 1)), tail);
    events := Prepare(0, 1) + tail;
  }

  lemma LoadedThenLost(t: State, tail: seq<Event>)
    requires tail == [Publish(0)] + ([Load(1, true)] + ([PowerLoss(false)] + []))
    requires t.links == [true, true] && |t.procs| == 2 && t.keyFile.None? && t.answers == []
    requires t.procs[0] == Process(Ready([1]), Some([1]), None) && t.procs[1] == Process(Idle, None, None)
    ensures Run(t, tail).answers == [Answer(1, [1], false)] && Run(t, tail).keyFile.None?
  {
    RunFirst(t, Publish(0), [Load(1, true)] + ([PowerLoss(false)] + []));
    RunFirst(Step(t, Publish(0)), Load(1, true), [PowerLoss(false)] + []);
    RunFirst(Step(Step(t, Publish(0)), Load(1, true)), PowerLoss(false), []);
  }

  // ---------------------------------------------------------------- two processes race

  function LinkRace(): seq<Event> {
    [Publish(0)] + ([Finish(0)] + ([Publish(1)] + ([Reload(1)] + [])))
  }

  function LockWinner(): seq<Event> {
    LockAndCheck(0) + ([Replace(0)] + ([Finish(0)] + []))
  }

  function LockLoser(): seq<Event> {
    ([Publish(1)] + ([TakeLock(1)] + [])) + ([CheckPath(1)] + ([Reload(1)] + []))
  }

  lemma BothReady(s: State)
    requires s == Initial(s.links) && |s.links| == 2
    ensures Run(Run(s, Prepare(0, 1)), Prepare(1, 2))
         == s.(procs := [Process(Ready([1]), Some([1]), None), Process(Ready([2]), Some([2]), None)])
  {
    PrepareReaches(s, 0, 1);
    PrepareReaches(Run(s, Prepare(0, 1)), 1, 2);
  }

  lemma LinkRaceAnswers(s: State)
    requires s == Initial([true, true])
    ensures var t := s.(procs := [Process(Ready([1]), Some([1]), None), Process(Ready([2]), Some([2]), None)]);
            Run(t, LinkRace()).answers == [Answer(0, [1], true), Answer(1, [1], false)]
  {
    var t := s.(procs := [Process(Ready([1]), Some([1]), None), Process(Ready([2]), Some([2]), None)]);
    RunFirst(t, Publish(0), [Finish(0)] + ([Publish(1)] + ([Reload(1)] + [])));
    var u := Step(t, Publish(0));
    RunFirst(u, Finish(0), [Publish(1)] + ([Reload(1)] + []));
    var v := Step(u, Finish(0));
    RunFirst(v, Publish(1), [Reload(1)] + []);
    RunFirst(Step(v, Publish(1)), Reload(1), []);
    RunNothing(Step(Step(v, Publish(1)), Reload(1)));
  }

  lemma ReplaceAndFinish(t: State)
    requires |t.links| == |t.procs| == 2 && t.keyFile.None? && t.lock == Some(0) && t.answers == []
    requires t.procs[0] == Process(Checked([1]), Some([1]), None)
    ensures Run(t, [Replace(0)] + ([Finish(0)] + []))
         == t.(keyFile := Some([1]), durable := true, lock := None, answers := [Answer(0, [1], true)],
               procs := t.procs[0 := Process(Ended, None, Some([1]))])
  {
    RunFirst(t, Replace(0), [Finish(0)] + []);
    RunFirst(Step(t, Replace(0)), Finish(0), []);
    RunNothing(Step(Step(t, Replace(0)), Finish(0)));
  }

  lemma LockRaceWinner(t: State)
    requires t.links == [false, false] && |t.procs| == 2 && t.keyFile.None? && t.lock.None? && t.answers == []
    requires t.procs[0] == Process(Ready([1]), Some([1]), None)
    ensures Run(t, LockWinner()) == t.(keyFile := Some([1]), durable := true, answers := [Answer(0, [1], true)],
                                       procs := t.procs[0 := Process(Ended, None, Some([1]))])
  {
    RunTwice(t, LockAndCheck(0), [Replace(0)] + ([Finish(0)] + []));
    CheckUnderLock(t, 0);
    var u := t.(lock := Some(0), procs := t.procs[0 := Process(Checked([1]), Some([1]), None)]);
    ReplaceAndFinish(u);
    assert u.procs[0 := Process(Ended, None, Some([1]))] == t.procs[0 := Process(Ended, None, Some([1]))];
  }

  lemma WantAndLock(t: State)
    requires t.links == [false, false] && |t.procs| == 2 && t.lock.None?
    requires t.procs[1] == Process(Ready([2]), Some([2]), None)
    ensures Run(t, [Publish(1)] + ([TakeLock(1)] + []))
         == t.(lock := Some(1), procs := t.procs[1 := Process(Locked([2]), Some([2]), None)])
  {
    RunFirst(t, Publish(1), [TakeLock(1)] + []);
    RunFirst(Step(t, Publish(1)), TakeLock(1), []);
    RunNothing(Step(Step(t, Publish(1)), TakeLock(1)));
  }

  lemma CheckAndReload(t: State)
    requires |t.links| == |t.procs| == 2 && t.keyFile == Some([1]) && t.lock == Some(1)
    requires t.procs[1] == Process(Locked([2]), Some([2]), None)
    ensures Run(t, [CheckPath(1)] + ([Reload(1)] + [])).answers == t.answers + [Answer(1, [1], false)]
  {
    RunFirst(t, CheckPath(1), [Reload(1)] + []);
    RunFirst(Step(t, CheckPath(1)), Reload(1), []);
    RunNothing(Step(Step(t, CheckPath(1)), Reload(1)));
  }

  lemma LockRaceLoser(t: State)
    requires t.links == [false, false] && |t.procs| == 2 && t.keyFile == Some([1]) && t.lock.None?
    requires t.procs[1] == Process(Ready([2]), Some([2]), None)
    ensures Run(t, LockLoser()).answers == t.answers + [Answer(1, [1], false)]
  {
    RunTwice(t, [Publish(1)] + ([TakeLock(1)] + []), [CheckPath(1)] + ([Reload(1)] + []));
    WantAndLock(t);
    CheckAndReload(t.(lock := Some(1), procs := t.procs[1 := Process(Locked([2]), Some([2]), None)]));
  }

  /** Two processes that find no key both end with the one of the winner, by links ... */
  lemma LinkRaceHasOneKey()
    ensures Run(Initial([true, true]), Prepare(0, 1) + (Prepare(1, 2) + LinkRace())).answers
         == [Answer(0, [1], true), Answer(1, [1], false)]
  {
    var s := Initial([true, true]);
    RunTwice(s, Prepare(0, 1), Prepare(1, 2) + LinkRace());
    RunTwice(Run(s, Prepare(0, 1)), Prepare(1, 2), LinkRace());
    BothReady(s);
    LinkRaceAnswers(s);
  }

  /** ... and by the lock. */
  lemma LockRaceHasOneKey()
    ensures Run(Initial([false, false]), Prepare(0, 1) + (Prepare(1, 2) + (LockWinner() + LockLoser()))).answers
         == [Answer(0, [1], true), Answer(1, [1], false)]
  {
    var s := Initial([false, false]);
    RunInFour(s, Prepare(0, 1), Prepare(1, 2), LockWinner(), LockLoser());
    BothReady(s);
    LockRaceRuns(Run(Run(s, Prepare(0, 1)), Prepare(1, 2)));
  }

  lemma LockRaceRuns(t: State)
    requires t.links == [false, false] && |t.procs| == 2 && t.keyFile.None? && t.lock.None? && t.answers == []
    requires t.procs[0] == Process(Ready([1]), Some([1]), None) && t.procs[1] == Process(Ready([2]), Some([2]), None)
    ensures Run(Run(t, LockWinner()), LockLoser()).answers == [Answer(0, [1], true), Answer(1, [1], false)]
  {
    LockRaceWinner(t);
    LockRaceLoser(Run(t, LockWinner()));
    assert [Answer(0, [1], true)] + [Answer(1, [1], false)] == [Answer(0, [1], true), Answer(1, [1], false)];
  }
}
