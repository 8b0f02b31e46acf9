/** The transactional configuration store: apply_transaction, writeconfig and writeconfig_values. */
module ConfigStore {
  /*
   One update touches the runtime object, the shared parser, the file on disk, the provider-id
   counter and the provider-search table, and every step may fail.  A call receives an
   environment that fixes how each fallible step ends this time; the theorems hold for every
   environment.  Opaque code (process_kwargs, configure, the encryption of configured secrets)
   may leave any runtime object and any parser behind, whether or not it completes.

   An Error is what `except Exception` catches; an Interrupt is a KeyboardInterrupt, SystemExit
   or GeneratorExit, which only the handler of apply_transaction sees.
   */
  import opened Options
  import opened Providers
  import Searches = ProviderSearches

  datatype Runtime = Runtime(
    scalars: map<string, string>,
    newznabs: seq<Provider>,
    torznabs: seq<Provider>,
    tokens: map<string, string>,
    order: Option<seq<string>>,
    encryptPasswords: bool)

  /** One option of the shared parser, in the parser's own (insertion) order. */
  datatype Setting = Setting(section: string, option: string, value: string)
  type Parser = seq<Setting>

  datatype State = State(
    runtime: Runtime,
    parser: Parser,
    disk: Option<string>,
    table: seq<Searches.Row>,
    startId: int,
    halted: bool)

  datatype Kind = Error | Interrupt

  /** How a step of the environment ended. */
  datatype Signal = Completed | Raised(kind: Kind)

  /** What opaque in-memory code leaves behind, and how it ended. */
  datatype Effect = Effect(runtime: Runtime, parser: Parser, signal: Signal)

  datatype Attempt<+T> = Got(value: T) | Failed(kind: Kind)

  /** _atomic_replace_file: it can fail with the old file in place, or after the rename. */
  datatype Replace = Replaced | FailedBefore(kind: Kind) | FailedAfter(kind: Kind)

  /** _restore_config_file: no fault, a fault that changes nothing, a fault after the change. */
  datatype FileFault = NoFault | FaultBefore | FaultAfter

  /** _restore_transaction_state: complete, or stopped somewhere in the middle. */
  datatype StateRestore = Restored | Partial(runtime: Runtime, parser: Parser)

  datatype Prepared = Prepared(
    newznabText: string,
    torznabText: string,
    newznabs: seq<Provider>,
    torznabs: seq<Provider>,
    tokens: map<string, string>,
    hasCredentials: bool)

  datatype Ordering = Ordering(order: seq<string>, text: string)

  datatype WriteEnv = WriteEnv(
    target: bool,                  // the write target resolves
    kwargs: Effect,                // process_kwargs on the scalar values
    prepare: Attempt<Prepared>,    // _prepare_provider_extras_for_write
    staging: Option<nat>,          // Some(k): parser assignment number k raises
    order: Attempt<Ordering>,      // _calculate_provider_order
    misc: (string, string),        // ignored_publishers and dynamic_update as written
    inspect: Signal,               // stat and read of the current file
    replace: Replace,              // _atomic_replace_file
    project: Attempt<seq<Searches.Row>>,    // write_out_provider_searches: committed table or rollback
    undo: FileFault)               // the inner _restore_config_file

  datatype ApplyEnv = ApplyEnv(
    target: bool,
    snapshot: Signal,              // reading the current file for the snapshot
    encrypt: Effect,
    write: WriteEnv,
    configure: Effect,
    compareFails: bool,            // _durable_write_changed could not read the file
    restoreState: StateRestore,
    restoreFile: FileFault)

  /** What the caller sees: True, False, or an exception. */
  datatype Outcome = True | False | Raises(kind: Kind)

  datatype Result = Result(state: State, outcome: Outcome)

  // ---------------------------------------------------------------- specification functions

  const PROVIDER_EXTRA_FIELDS: set<string> := {"EXTRA_NEWZNABS", "EXTRA_TORZNABS"}

  predicate HasProviders(values: map<string, string>) {
    exists key :: key in values && key in PROVIDER_EXTRA_FIELDS
  }

  predicate HasScalars(values: map<string, string>) {
    exists key :: key in values && key !in PROVIDER_EXTRA_FIELDS
  }

  function Put(parser: Parser, s: Setting): Parser {
    if parser == [] then [s]
    else if parser[0].section == s.section && parser[0].option == s.option then [s] + parser[1..]
    else [parser[0]] + Put(parser[1..], s)
  }

  function PutAll(parser: Parser, settings: seq<Setting>): Parser {
    if settings == [] then parser
    else Put(PutAll(parser, settings[..|settings| - 1]), settings[|settings| - 1])
  }

  function Render(parser: Parser): string {
    if parser == [] then ""
    else "[" + parser[0].section + "]\n" + parser[0].option + " = " + parser[0].value + "\n" + Render(parser[1..])
  }

  function MaxId(start: int, entries: seq<Provider>): int {
    if entries == [] then start
    else
      var m := MaxId(start, entries[..|entries| - 1]);
      var id := entries[|entries| - 1].id;
      if id > m then id else m
  }

  /** The parser assignments of one write, in order. */
  function Settings(prep: Prepared, ordering: Option<Ordering>, misc: (string, string)): seq<Setting> {
    [Setting("Newznab", "extra_newznabs", prep.newznabText), Setting("Torznab", "extra_torznabs", prep.torznabText)]
    + (if prep.hasCredentials then [Setting("General", "encrypt_passwords", "True")] else [])
    + (if ordering.Some? then [Setting("Providers", "PROVIDER_ORDER", ordering.value.text)] else [])
    + [Setting("CV", "ignored_publishers", misc.0), Setting("General", "dynamic_update", misc.1)]
  }

  /** The state after the first k assignments of a write. */
  function Staged(s: State, prep: Prepared, settings: seq<Setting>, k: nat): State
    requires k <= |settings|
  {
    s.(parser := PutAll(s.parser, settings[..k]),
       runtime := s.runtime.(encryptPasswords := s.runtime.encryptPasswords || (prep.hasCredentials && k >= 2)))
  }

  function AfterEffect(s: State, e: Effect): State {
    s.(runtime := e.runtime, parser := e.parser)
  }

  function Publish(s: State, prep: Prepared, ordering: Option<Ordering>): State {
    s.(runtime := s.runtime.(newznabs := prep.newznabs, torznabs := prep.torznabs, tokens := prep.tokens,
                             order := if ordering.Some? then Some(ordering.value.order) else s.runtime.order),
       startId := MaxId(s.startId, prep.newznabs + prep.torznabs))
  }

  /** The file after _restore_config_file, and whether that step completed. */
  function RestoreFile(current: Option<string>, previous: Option<string>, fault: FileFault): (Option<string>, bool) {
    match fault
    case FaultBefore => (current, false)
    case NoFault => (previous, true)
    case FaultAfter => if current == previous then (current, true) else (previous, false)
  }

  /** The replace and projection phase of _writeconfig; `before` is the parser to fall back to. */
  function Persist(s: State, before: Parser, prep: Prepared, ordering: Option<Ordering>, project: bool,
                   env: WriteEnv): Result {
    var written := s.(disk := Some(Render(s.parser)));
    match env.replace
    case FailedBefore(Error) => Result(s.(parser := before), False)
    case FailedBefore(Interrupt) => Result(s, Raises(Interrupt))
    case FailedAfter(Error) => Result(written.(parser := before), False)
    case FailedAfter(Interrupt) => Result(written, Raises(Interrupt))
    case Replaced =>
      if !project then Result(Publish(written, prep, ordering), True)
      else match env.project
        case Got(table) => Result(Publish(written.(table := table), prep, ordering), True)
        case Failed(Interrupt) => Result(written, Raises(Interrupt))
        case Failed(Error) =>
          Result(written.(parser := before, disk := RestoreFile(written.disk, s.disk, env.undo).0), False)
  }

  /** _writeconfig once the values have been processed. */
  function WriteProcessed(s: State, providers: bool, startup: bool, env: WriteEnv): Result {
    match env.prepare
    case Failed(Error) => Result(s, False)
    case Failed(Interrupt) => Result(s, Raises(Interrupt))
    case Got(prep) =>
      var sequenced := !startup && providers;
      var early := if prep.hasCredentials then 3 else 2;  // assignments made before the ordering
      if sequenced && env.order.Failed? && !(env.staging.Some? && env.staging.value < early) then
        Result(Staged(s, prep, Settings(prep, None, env.misc), early), Raises(env.order.kind))
      else
        var ordering := if sequenced && env.order.Got? then Some(env.order.value) else None;
        var settings := Settings(prep, ordering, env.misc);
        if env.staging.Some? && env.staging.value < |settings| then
          Result(Staged(s, prep, settings, env.staging.value), Raises(Error))
        else
          var staged := Staged(s, prep, settings, |settings|);
          if env.inspect.Raised? then Result(staged, Raises(env.inspect.kind))
          else Persist(staged, s.parser, prep, ordering, sequenced, env)
  }

  /** _writeconfig; `process` says whether the values come as its own `values` argument. */
  function WriteInner(s: State, values: map<string, string>, process: bool, startup: bool, env: WriteEnv): Result {
    if !env.target then Result(s, False)
    else if process && HasScalars(values) then
      var t := AfterEffect(s, env.kwargs);
      if env.kwargs.signal.Raised? then Result(t, Raises(env.kwargs.signal.kind))
      else WriteProcessed(t, HasProviders(values), startup, env)
    else WriteProcessed(s, HasProviders(values), startup, env)
  }

  function WriteConfig(s: State, values: map<string, string>, startup: bool, env: WriteEnv): Result {
    if s.halted then Result(s, False) else WriteInner(s, values, true, startup, env)
  }

  function RestoreState(s: State, previous: State, how: StateRestore): State {
    match how
    case Restored => s.(runtime := previous.runtime, parser := previous.parser)
    case Partial(runtime, parser) => s.(runtime := runtime, parser := parser)
  }

  function WriteConfigValues(s: State, values: map<string, string>, startup: bool, env: WriteEnv,
                             how: StateRestore): Result {
    if s.halted then Result(s, False)
    else
      var t := if HasScalars(values) then AfterEffect(s, env.kwargs) else s;
      var r :=
        if HasScalars(values) && env.kwargs.signal.Raised? then Result(t, Raises(env.kwargs.signal.kind))
        else WriteInner(t, values, false, startup, env);
      if r.outcome == True || r.outcome == Raises(Interrupt) then r
      else Result(RestoreState(r.state, s, how), False)
  }

  /** The guarded body of apply_transaction: the state it leaves, and how it ended. */
  function Body(s: State, values: map<string, string>, configure: bool, env: ApplyEnv): (State, Signal) {
    var providers := HasProviders(values);
    var t := if HasScalars(values) then AfterEffect(s, env.write.kwargs) else s;
    if HasScalars(values) && env.write.kwargs.signal.Raised? then (t, env.write.kwargs.signal)
    else
      var u := AfterEffect(t, env.encrypt);
      if env.encrypt.signal.Raised? then (u, env.encrypt.signal)
      else
        var w := if providers then WriteInner(u, values, false, false, env.write)
                 else WriteConfig(u, map[], false, env.write);
        match w.outcome
        case False => (w.state, Raised(Error))
        case Raises(kind) => (w.state, Raised(kind))
        case True =>
          if configure && !providers then (AfterEffect(w.state, env.configure), env.configure.signal)
          else (w.state, Completed)
  }

  /** The exception handler of apply_transaction. */
  function RollBack(s: State, dirty: State, kind: Kind, env: ApplyEnv): Result {
    var durable := env.compareFails || dirty.disk != s.disk;
    var (disk, fileOk) := RestoreFile(dirty.disk, s.disk, env.restoreFile);
    var t := RestoreState(dirty, s, env.restoreState).(startId := s.startId, disk := disk);
    Result(t.(halted := durable && !(env.restoreState.Restored? && fileOk)),
           if kind.Interrupt? then Raises(Interrupt) else False)
  }

  function Apply(s: State, values: map<string, string>, configure: bool, env: ApplyEnv): Result {
    if s.halted || !env.target then Result(s, False)
    else if env.snapshot.Raised? then Result(s, Raises(env.snapshot.kind))
    else
      var (t, signal) := Body(s, values, configure, env);
      if signal.Completed? then Result(t, True) else RollBack(s, t, signal.kind, env)
  }

  // ---------------------------------------------------------------- calls and runs

  datatype Call =
    | ApplyCall(values: map<string, string>, configure: bool, aenv: ApplyEnv)
    | WriteCall(values: map<string, string>, startup: bool, wenv: WriteEnv)
    | ValuesCall(values: map<string, string>, startup: bool, wenv: WriteEnv, how: StateRestore)

  function Step(s: State, call: Call): Result {
    match call
    case ApplyCall(values, configure, env) => Apply(s, values, configure, env)
    case WriteCall(values, startup, env) => WriteConfig(s, values, startup, env)
    case ValuesCall(values, startup, env, how) => WriteConfigValues(s, values, startup, env, how)
  }

  function Run(s: State, calls: seq<Call>): State
    decreases |calls|
  {
    if calls == [] then s else Run(Step(s, calls[0]).state, calls[1..])
  }

  /** The calls of a run that return True. */
  function Successful(s: State, calls: seq<Call>): seq<Call>
    decreases |calls|
  {
    if calls == [] then []
    else
      var r := Step(s, calls[0]);
      (if r.outcome == True then [calls[0]] else []) + Successful(r.state, calls[1..])
  }

  /** The file and the projection published by the last call that returned True. */
  function LastCommitted(s: State, calls: seq<Call>, committed: (Option<string>, seq<Searches.Row>))
    : (Option<string>, seq<Searches.Row>)
    decreases |calls|
  {
    if calls == [] then committed
    else
      var r := Step(s, calls[0]);
      LastCommitted(r.state, calls[1..], if r.outcome == True then (r.state.disk, r.state.table) else committed)
  }

  predicate OnlyTransactions(calls: seq<Call>) {
    forall i :: 0 <= i < |calls| ==> calls[i].ApplyCall?
  }

  // ---------------------------------------------------------------- what one call keeps

  lemma PersistFrame(s: State, before: Parser, prep: Prepared, ordering: Option<Ordering>, project: bool, env: WriteEnv)
    ensures var r := Persist(s, before, prep, ordering, project, env);
            r.state.halted == s.halted &&
            (r.outcome != True ==> r.state.table == s.table && r.state.startId == s.startId) &&
            (r.outcome == True && !project ==> r.state.table == s.table)
  {
  }

  lemma ProcessedFrame(s: State, providers: bool, startup: bool, env: WriteEnv)
    ensures var r := WriteProcessed(s, providers, startup, env);
            r.state.halted == s.halted &&
            (r.outcome != True ==> r.state.table == s.table && r.state.startId == s.startId) &&
            (r.outcome == True && !providers ==> r.state.table == s.table)
  {
    if env.prepare.Got? {
      var prep := env.prepare.value;
      var sequenced := !startup && providers;
      var ordering := if sequenced && env.order.Got? then Some(env.order.value) else None;
      var settings := Settings(prep, ordering, env.misc);
      PersistFrame(Staged(s, prep, settings, |settings|), s.parser, prep, ordering, sequenced, env);
    }
  }

  lemma WriteInnerFrame(s: State, values: map<string, string>, process: bool, startup: bool, env: WriteEnv)
    ensures var r := WriteInner(s, values, process, startup, env);
            r.state.halted == s.halted &&
            (r.outcome != True ==> r.state.table == s.table && r.state.startId == s.startId) &&
            (r.outcome == True && !HasProviders(values) ==> r.state.table == s.table)
  {
    var t := if process && HasScalars(values) then AfterEffect(s, env.kwargs) else s;
    ProcessedFrame(t, HasProviders(values), startup, env);
  }

  lemma BodyFrame(s: State, values: map<string, string>, configure: bool, env: ApplyEnv)
    ensures var (t, signal) := Body(s, values, configure, env);
            t.halted == s.halted && (signal.Raised? ==> t.table == s.table)
  {
    var t := if HasScalars(values) then AfterEffect(s, env.write.kwargs) else s;
    var u := AfterEffect(t, env.encrypt);
    WriteInnerFrame(u, values, false, false, env.write);
    WriteInnerFrame(u, map[], true, false, env.write);
    assert !HasProviders(map[]);
  }

  /**
   A transaction that does not return True leaves one of exactly three situations: everything
   as before, the store halted, or a memory-only loss while the file never changed.
   */
  lemma FailedTransaction(s: State, values: map<string, string>, configure: bool, env: ApplyEnv)
    requires !s.halted
    requires Apply(s, values, configure, env).outcome != True
    ensures var t := Apply(s, values, configure, env).state;
            && t.table == s.table && t.startId == s.startId
            && (t.halted || t.disk == s.disk)
            && (t == s || t.halted || (env.restoreState.Partial? && Body(s, values, configure, env).0.disk == s.disk))
            && (env.restoreState.Restored? ==> t.runtime == s.runtime && t.parser == s.parser)
            && (t.disk == s.disk || (env.restoreFile.FaultBefore? && t.disk == Body(s, values, configure, env).0.disk))
  {
    BodyFrame(s, values, configure, env);
  }

  /**
   The store halts exactly when the handler runs, the file was or may have been changed, and
   one of the two restorations did not complete.
   */
  lemma HaltsExactlyWhen(s: State, values: map<string, string>, configure: bool, env: ApplyEnv)
    requires !s.halted
    ensures var (dirty, signal) := Body(s, values, configure, env);
            Apply(s, values, configure, env).state.halted <==>
              && env.target && env.snapshot.Completed? && signal.Raised?
              && (env.compareFails || dirty.disk != s.disk)
              && (env.restoreState.Partial? || env.restoreFile.FaultBefore? ||
                  (env.restoreFile.FaultAfter? && dirty.disk != s.disk))
  {
    BodyFrame(s, values, configure, env);
  }

  function Lookup(parser: Parser, section: string, option: string): Option<string> {
    if parser == [] then None
    else if parser[0].section == section && parser[0].option == option then Some(parser[0].value)
    else Lookup(parser[1..], section, option)
  }

  lemma {:induction false} LookupPut(parser: Parser, s: Setting, section: string, option: string)
    ensures Lookup(Put(parser, s), section, option) ==
            if s.section == section && s.option == option then Some(s.value) else Lookup(parser, section, option)
  {
    if parser != [] && !(parser[0].section == s.section && parser[0].option == s.option) {
      LookupPut(parser[1..], s, section, option);
    }
  }

  /** What a write stores under an option is its last assignment to it. */
  lemma {:induction false} LookupPutAll(parser: Parser, settings: seq<Setting>, i: nat)
    requires i < |settings|
    requires forall j :: i < j < |settings| ==>
               settings[j].section != settings[i].section || settings[j].option != settings[i].option
    ensures Lookup(PutAll(parser, settings), settings[i].section, settings[i].option) == Some(settings[i].value)
  {
    var n := |settings| - 1;
    LookupPut(PutAll(parser, settings[..n]), settings[n], settings[i].section, settings[i].option);
    if i < n {
      LookupPutAll(parser, settings[..n], i);
    }
  }

  lemma {:induction false} MaxIdBounds(start: int, entries: seq<Provider>)
    ensures MaxId(start, entries) >= start
    ensures forall e :: e in entries ==> MaxId(start, entries) >= e.id
  {
    if entries != [] {
      MaxIdBounds(start, entries[..|entries| - 1]);
    }
  }

  lemma ProviderWrite(s: State, env: WriteEnv)
    requires WriteProcessed(s, true, false, env).outcome == True
    ensures env.prepare.Got? && env.order.Got? && env.project.Got?
    ensures var t := WriteProcessed(s, true, false, env).state;
            var prep := env.prepare.value;
            && t.disk == Some(Render(t.parser))
            && Lookup(t.parser, "Newznab", "extra_newznabs") == Some(prep.newznabText)
            && Lookup(t.parser, "Torznab", "extra_torznabs") == Some(prep.torznabText)
            && Lookup(t.parser, "Providers", "PROVIDER_ORDER") == Some(env.order.value.text)
            && t.table == env.project.value
            && t.runtime.newznabs == prep.newznabs && t.runtime.torznabs == prep.torznabs
            && t.runtime.tokens == prep.tokens && t.runtime.order == Some(env.order.value.order)
            && t.startId >= s.startId
            && forall e :: e in prep.newznabs + prep.torznabs ==> t.startId >= e.id
  {
    var prep := env.prepare.value;
    var settings := Settings(prep, Some(env.order.value), env.misc);
    assert settings[..|settings|] == settings;
    assert WriteProcessed(s, true, false, env)
        == Persist(Staged(s, prep, settings, |settings|), s.parser, prep, Some(env.order.value), true, env);
    StoredOptions(s.parser, prep, env.order.value, env.misc);
    MaxIdBounds(s.startId, prep.newznabs + prep.torznabs);
  }

  lemma StoredOptions(parser: Parser, prep: Prepared, ordering: Ordering, misc: (string, string))
    ensures var p := PutAll(parser, Settings(prep, Some(ordering), misc));
            && Lookup(p, "Newznab", "extra_newznabs") == Some(prep.newznabText)
            && Lookup(p, "Torznab", "extra_torznabs") == Some(prep.torznabText)
            && Lookup(p, "Providers", "PROVIDER_ORDER") == Some(ordering.text)
  {
    StagedTexts(parser, prep, Some(ordering), misc);
  }

  /**
   A provider update that returns True has published everything together: the file holds the
   new provider options and order, the table is the committed projection, the runtime lists
   and tokens are the prepared ones, and the counter is at or above every provider id.
   */
  lemma ProviderCommit(s: State, values: map<string, string>, configure: bool, env: ApplyEnv)
    requires HasProviders(values)
    requires Apply(s, values, configure, env).outcome == True
    ensures env.write.prepare.Got? && env.write.order.Got? && env.write.project.Got?
    ensures var t := Apply(s, values, configure, env).state;
            var prep := env.write.prepare.value;
            && t.disk == Some(Render(t.parser))
            && Lookup(t.parser, "Newznab", "extra_newznabs") == Some(prep.newznabText)
            && Lookup(t.parser, "Torznab", "extra_torznabs") == Some(prep.torznabText)
            && Lookup(t.parser, "Providers", "PROVIDER_ORDER") == Some(env.write.order.value.text)
            && t.table == env.write.project.value
            && t.runtime.newznabs == prep.newznabs && t.runtime.torznabs == prep.torznabs
            && t.runtime.tokens == prep.tokens && t.runtime.order == Some(env.write.order.value.order)
            && t.startId >= s.startId
            && forall e :: e in prep.newznabs + prep.torznabs ==> t.startId >= e.id
  {
    var u := AfterEffect(if HasScalars(values) then AfterEffect(s, env.write.kwargs) else s, env.encrypt);
    assert WriteInner(u, values, false, false, env.write) == WriteProcessed(u, true, false, env.write);
    assert Apply(s, values, configure, env).state == WriteProcessed(u, true, false, env.write).state;
    ProviderWrite(u, env.write);
  }

  /** An update without provider values never touches the projection. */
  lemma ScalarCommit(s: State, values: map<string, string>, configure: bool, env: ApplyEnv)
    requires !HasProviders(values)
    ensures Apply(s, values, configure, env).state.table == s.table
  {
    BodyFrame(s, values, configure, env);
    assert !HasProviders(map[]);
  }

  // ---------------------------------------------------------------- whole runs

  /** Once halted, no call of any kind changes anything, however long the run. */
  lemma {:induction false} HaltedAbsorbs(s: State, calls: seq<Call>)
    requires s.halted
    ensures Run(s, calls) == s && Successful(s, calls) == []
    decreases |calls|
  {
    if calls != [] {
      HaltedAbsorbs(s, calls[1..]);
    }
  }

  /**
   Over any run of transactions the projection is that of the last call that returned True,
   and so is the file unless the store has halted.
   */
  lemma {:induction false} RunPublishesLastCommit(s: State, calls: seq<Call>)
    requires OnlyTransactions(calls)
    ensures var t := Run(s, calls);
            var c := LastCommitted(s, calls, (s.disk, s.table));
            t.table == c.1 && (t.halted || t.disk == c.0)
    decreases |calls|
  {
    if calls != [] {
      var r := Step(s, calls[0]);
      if s.halted {
        HaltedAbsorbs(s, calls);
        LastCommittedOfHalted(s, calls, (s.disk, s.table));
      } else {
        if r.outcome != True {
          FailedTransaction(s, calls[0].values, calls[0].configure, calls[0].aenv);
        }
        if r.state.halted {
          HaltedAbsorbs(r.state, calls[1..]);
          LastCommittedOfHalted(r.state, calls[1..],
                                if r.outcome == True then (r.state.disk, r.state.table) else (s.disk, s.table));
        } else {
          RunPublishesLastCommit(r.state, calls[1..]);
        }
      }
    }
  }

  lemma {:induction false} LastCommittedOfHalted(s: State, calls: seq<Call>,
                                                 committed: (Option<string>, seq<Searches.Row>))
    requires s.halted
    ensures LastCommitted(s, calls, committed) == committed
    decreases |calls|
  {
    if calls != [] {
      LastCommittedOfHalted(s, calls[1..], committed);
    }
  }

  /**
   Failed transactions are unobservable: as long as the in-memory restoration works and the
   store is not halted, a run ends in the state the successful calls alone would have reached.
   */
  lemma {:induction false} FailuresAreUnobservable(s: State, calls: seq<Call>)
    requires OnlyTransactions(calls)
    requires forall i :: 0 <= i < |calls| ==> calls[i].aenv.restoreState.Restored?
    requires !Run(s, calls).halted
    ensures Run(s, calls) == Run(s, Successful(s, calls))
    decreases |calls|
  {
    if calls != [] {
      if s.halted {
        HaltedAbsorbs(s, calls);
      }
      var r := Step(s, calls[0]);
      if r.state.halted {
        HaltedAbsorbs(r.state, calls[1..]);
      }
      FailuresAreUnobservable(r.state, calls[1..]);
      assert [] + Successful(r.state, calls[1..]) == Successful(r.state, calls[1..]);
      if r.outcome == True {
        var rest := Successful(r.state, calls[1..]);
        assert ([calls[0]] + rest)[1..] == rest;
      } else {
        FailedTransaction(s, calls[0].values, calls[0].configure, calls[0].aenv);
      }
    }
  }

  // ---------------------------------------------------------------- the weaker entry points

  /** Nothing raises on the way to the file replacement. */
  predicate ReachesReplace(providers: bool, startup: bool, env: WriteEnv) {
    && env.prepare.Got? && env.inspect.Completed?
    && (!startup && providers ==> env.order.Got?)
    && (env.staging.Some? ==>
          env.staging.value >= |Settings(env.prepare.value, WrittenOrder(providers, startup, env), env.misc)|)
  }

  function WrittenOrder(providers: bool, startup: bool, env: WriteEnv): Option<Ordering> {
    if !startup && providers && env.order.Got? then Some(env.order.value) else None
  }

  /** What the write renders into the file. */
  function WrittenText(s: State, providers: bool, startup: bool, env: WriteEnv): string
    requires env.prepare.Got?
  {
    Render(PutAll(s.parser, Settings(env.prepare.value, WrittenOrder(providers, startup, env), env.misc)))
  }

  /**
   A refused write left the new file behind: a fault after the rename, or a failed projection whose
   undo changed nothing, or that was interrupted and not undone.
   */
  predicate LeavesNewFile(providers: bool, startup: bool, env: WriteEnv) {
    || env.replace.FailedAfter?
    || (env.replace.Replaced? && !startup && providers && env.project.Failed?
        && (env.project.kind.Interrupt? || env.undo.FaultBefore?))
  }

  /**
   A write that is refused or raises changes the file exactly when it leaves a different file
   behind; and when it is refused the parser is as before, and memory too but for one flag.
   */
  lemma RefusedWrite(s: State, providers: bool, startup: bool, env: WriteEnv)
    requires WriteProcessed(s, providers, startup, env).outcome != True
    ensures WriteProcessed(s, providers, startup, env).outcome == False ==>
              var t := WriteProcessed(s, providers, startup, env).state;
              var switched := env.prepare.Got? && env.prepare.value.hasCredentials;
              t == s.(disk := t.disk,
                      runtime := s.runtime.(encryptPasswords := s.runtime.encryptPasswords || switched))
    ensures var t := WriteProcessed(s, providers, startup, env).state;
            t.disk != s.disk <==>
              && ReachesReplace(providers, startup, env)
              && LeavesNewFile(providers, startup, env)
              && Some(WrittenText(s, providers, startup, env)) != s.disk
  {
    if env.prepare.Got? {
      var prep := env.prepare.value;
      var ordering := WrittenOrder(providers, startup, env);
      var settings := Settings(prep, ordering, env.misc);
      assert settings[..|settings|] == settings;
      var staged := Staged(s, prep, settings, |settings|);
      if ReachesReplace(providers, startup, env) {
        assert WriteProcessed(s, providers, startup, env)
            == Persist(staged, s.parser, prep, ordering, !startup && providers, env);
      } else {
        assert WriteProcessed(s, providers, startup, env).state.disk == s.disk;
      }
    }
  }

  /** writeconfig returning False keeps the file, exactly unless it leaves a different file behind. */
  lemma WriteConfigFailure(s: State, values: map<string, string>, startup: bool, env: WriteEnv)
    requires !s.halted && env.target
    requires WriteConfig(s, values, startup, env).outcome == False
    ensures var t := WriteConfig(s, values, startup, env).state;
            var u := if HasScalars(values) then AfterEffect(s, env.kwargs) else s;
            && t.table == s.table && !t.halted
            && (t.disk != s.disk <==>
                  && ReachesReplace(HasProviders(values), startup, env)
                  && LeavesNewFile(HasProviders(values), startup, env)
                  && Some(WrittenText(u, HasProviders(values), startup, env)) != s.disk)
  {
    var u := if HasScalars(values) then AfterEffect(s, env.kwargs) else s;
    assert WriteConfig(s, values, startup, env) == WriteProcessed(u, HasProviders(values), startup, env);
    RefusedWrite(u, HasProviders(values), startup, env);
    ProcessedFrame(u, HasProviders(values), startup, env);
  }

  /** writeconfig_values has the same gap: it puts memory back, but not the file. */
  lemma WriteConfigValuesFailure(s: State, values: map<string, string>, startup: bool, env: WriteEnv, how: StateRestore)
    requires !s.halted && env.target && how.Restored?
    requires HasScalars(values) ==> env.kwargs.signal.Completed?
    requires WriteConfigValues(s, values, startup, env, how).outcome == False
    ensures var t := WriteConfigValues(s, values, startup, env, how).state;
            var u := if HasScalars(values) then AfterEffect(s, env.kwargs) else s;
            && t == s.(disk := t.disk)
            && (t.disk != s.disk <==>
                  && ReachesReplace(HasProviders(values), startup, env)
                  && LeavesNewFile(HasProviders(values), startup, env)
                  && Some(WrittenText(u, HasProviders(values), startup, env)) != s.disk)
  {
    var u := if HasScalars(values) then AfterEffect(s, env.kwargs) else s;
    var r := WriteProcessed(u, HasProviders(values), startup, env);
    assert WriteInner(u, values, false, startup, env) == r;
    assert r.outcome.Raises? ==> r.outcome.kind == Error;
    assert WriteConfigValues(s, values, startup, env, how) == Result(RestoreState(r.state, s, how), False);
    RefusedWrite(u, HasProviders(values), startup, env);
    ProcessedFrame(u, HasProviders(values), startup, env);
  }

  // ---------------------------------------------------------------- what a successful write holds

  /** The options a write may assign. */
  predicate Assigns(section: string, option: string) {
    || (section == "Newznab" && option == "extra_newznabs") || (section == "Torznab" && option == "extra_torznabs")
    || (section == "General" && option == "encrypt_passwords") || (section == "Providers" && option == "PROVIDER_ORDER")
    || (section == "CV" && option == "ignored_publishers") || (section == "General" && option == "dynamic_update")
  }

  /** The parser p holds the texts of this write, and every other option as in the parser it started from. */
  ghost predicate Holds(p: Parser, start: Parser, prep: Prepared, ordering: Option<Ordering>, misc: (string, string)) {
    && Lookup(p, "Newznab", "extra_newznabs") == Some(prep.newznabText)
    && Lookup(p, "Torznab", "extra_torznabs") == Some(prep.torznabText)
    && Lookup(p, "CV", "ignored_publishers") == Some(misc.0)
    && Lookup(p, "General", "dynamic_update") == Some(misc.1)
    && Lookup(p, "General", "encrypt_passwords")
       == (if prep.hasCredentials then Some("True") else Lookup(start, "General", "encrypt_passwords"))
    && Lookup(p, "Providers", "PROVIDER_ORDER")
       == (if ordering.Some? then Some(ordering.value.text) else Lookup(start, "Providers", "PROVIDER_ORDER"))
    && (forall section, option :: !Assigns(section, option) ==>
          Lookup(p, section, option) == Lookup(start, section, option))
  }

  lemma {:induction false} LookupOthers(parser: Parser, settings: seq<Setting>, section: string, option: string)
    requires forall i :: 0 <= i < |settings| ==> settings[i].section != section || settings[i].option != option
    ensures Lookup(PutAll(parser, settings), section, option) == Lookup(parser, section, option)
  {
    if settings != [] {
      var n := |settings| - 1;
      LookupOthers(parser, settings[..n], section, option);
      LookupPut(PutAll(parser, settings[..n]), settings[n], section, option);
    }
  }

  lemma SettingsAre(prep: Prepared, ordering: Option<Ordering>, misc: (string, string))
    ensures var list := Settings(prep, ordering, misc);
            var a, b := if prep.hasCredentials then 3 else 2, if ordering.Some? then 1 else 0;
            && |list| == a + b + 2
            && list[0] == Setting("Newznab", "extra_newznabs", prep.newznabText)
            && list[1] == Setting("Torznab", "extra_torznabs", prep.torznabText)
            && (prep.hasCredentials ==> list[2] == Setting("General", "encrypt_passwords", "True"))
            && (ordering.Some? ==> list[a] == Setting("Providers", "PROVIDER_ORDER", ordering.value.text))
            && list[a + b] == Setting("CV", "ignored_publishers", misc.0)
            && list[a + b + 1] == Setting("General", "dynamic_update", misc.1)
  {
  }

  lemma StagedOthers(start: Parser, prep: Prepared, ordering: Option<Ordering>, misc: (string, string),
                     section: string, option: string)
    requires !Assigns(section, option)
             || (section == "General" && option == "encrypt_passwords" && !prep.hasCredentials)
             || (section == "Providers" && option == "PROVIDER_ORDER" && ordering.None?)
    ensures Lookup(PutAll(start, Settings(prep, ordering, misc)), section, option) == Lookup(start, section, option)
  {
    LookupOthers(start, Settings(prep, ordering, misc), section, option);
  }

  lemma StagedTexts(start: Parser, prep: Prepared, ordering: Option<Ordering>, misc: (string, string))
    ensures var p := PutAll(start, Settings(prep, ordering, misc));
            && Lookup(p, "Newznab", "extra_newznabs") == Some(prep.newznabText)
            && Lookup(p, "Torznab", "extra_torznabs") == Some(prep.torznabText)
            && Lookup(p, "CV", "ignored_publishers") == Some(misc.0)
            && Lookup(p, "General", "dynamic_update") == Some(misc.1)
            && (prep.hasCredentials ==> Lookup(p, "General", "encrypt_passwords") == Some("True"))
            && (ordering.Some? ==> Lookup(p, "Providers", "PROVIDER_ORDER") == Some(ordering.value.text))
  {
    var list := Settings(prep, ordering, misc);
    var a, b := if prep.hasCredentials then 3 else 2, if ordering.Some? then 1 else 0;
    SettingsAre(prep, ordering, misc);
    LookupPutAll(start, list, 0);
    LookupPutAll(start, list, 1);
    LookupPutAll(start, list, a + b);
    LookupPutAll(start, list, a + b + 1);
    if prep.hasCredentials {
      LookupPutAll(start, list, 2);
    }
    if ordering.Some? {
      LookupPutAll(start, list, a);
    }
  }

  lemma StagedHolds(start: Parser, prep: Prepared, ordering: Option<Ordering>, misc: (string, string))
    ensures Holds(PutAll(start, Settings(prep, ordering, misc)), start, prep, ordering, misc)
  {
    StagedTexts(start, prep, ordering, misc);
    if !prep.hasCredentials {
      StagedOthers(start, prep, ordering, misc, "General", "encrypt_passwords");
    }
    if ordering.None? {
      StagedOthers(start, prep, ordering, misc, "Providers", "PROVIDER_ORDER");
    }
    forall section, option | !Assigns(section, option)
      ensures Lookup(PutAll(start, Settings(prep, ordering, misc)), section, option) == Lookup(start, section, option)
    {
      StagedOthers(start, prep, ordering, misc, section, option);
    }
  }

  /** Everything a write published: the file is the rendered parser, and memory is what was prepared. */
  ghost predicate Published(start: State, t: State, p: Parser, providers: bool, startup: bool, env: WriteEnv)
    requires env.prepare.Got?
  {
    var prep, ordering := env.prepare.value, WrittenOrder(providers, startup, env);
    && t.disk == Some(Render(p)) && Holds(p, start.parser, prep, ordering, env.misc)
    && t.startId >= start.startId && (forall e :: e in prep.newznabs + prep.torznabs ==> t.startId >= e.id)
    && (t.startId == start.startId || exists e :: e in prep.newznabs + prep.torznabs && t.startId == e.id)
    && (if providers && !startup then env.project.Got? && t.table == env.project.value else t.table == start.table)
    && t.halted == start.halted
  }

  /** The runtime object after a write that published. */
  ghost predicate Runs(start: Runtime, r: Runtime, providers: bool, startup: bool, env: WriteEnv)
    requires env.prepare.Got?
  {
    var prep, ordering := env.prepare.value, WrittenOrder(providers, startup, env);
    && r.newznabs == prep.newznabs && r.torznabs == prep.torznabs && r.tokens == prep.tokens
    && r.order == (if ordering.Some? then Some(ordering.value.order) else start.order)
    && r.encryptPasswords == (start.encryptPasswords || prep.hasCredentials) && r.scalars == start.scalars
  }

  lemma {:induction false} MaxIdIsOne(start: int, entries: seq<Provider>)
    ensures MaxId(start, entries) == start || exists e :: e in entries && MaxId(start, entries) == e.id
  {
    if entries != [] {
      var n := |entries| - 1;
      MaxIdIsOne(start, entries[..n]);
      assert entries[n] in entries && forall e :: e in entries[..n] ==> e in entries;
    }
  }

  /** Nothing fails on the way to publication. */
  predicate Succeeds(providers: bool, startup: bool, env: WriteEnv) {
    ReachesReplace(providers, startup, env) && env.replace.Replaced? && (!startup && providers ==> env.project.Got?)
  }

  /** A write returns True exactly when no step fails, and then the new file is in place, projection or not. */
  lemma ProcessedWrites(s: State, providers: bool, startup: bool, env: WriteEnv)
    ensures WriteProcessed(s, providers, startup, env).outcome == True <==> Succeeds(providers, startup, env)
    ensures Succeeds(providers, startup, env) ==>
              var t := WriteProcessed(s, providers, startup, env).state;
              Published(s, t, t.parser, providers, startup, env) && Runs(s.runtime, t.runtime, providers, startup, env)
  {
    if env.prepare.Got? {
      var prep, ordering := env.prepare.value, WrittenOrder(providers, startup, env);
      var settings := Settings(prep, ordering, env.misc);
      assert settings[..|settings|] == settings;
      var staged := Staged(s, prep, settings, |settings|);
      StagedHolds(s.parser, prep, ordering, env.misc);
      SettingsAre(prep, ordering, env.misc);
      if ReachesReplace(providers, startup, env) {
        assert WriteProcessed(s, providers, startup, env)
            == Persist(staged, s.parser, prep, ordering, !startup && providers, env);
        MaxIdBounds(s.startId, prep.newznabs + prep.torznabs);
        MaxIdIsOne(s.startId, prep.newznabs + prep.torznabs);
      }
    }
  }

  /** What a write that takes the values itself starts from. */
  function Processed(s: State, values: map<string, string>, env: WriteEnv): State {
    if HasScalars(values) then AfterEffect(s, env.kwargs) else s
  }

  predicate Processes(values: map<string, string>, env: WriteEnv) {
    HasScalars(values) ==> env.kwargs.signal.Completed?
  }

  lemma WriteConfigWrites(s: State, values: map<string, string>, startup: bool, env: WriteEnv)
    ensures WriteConfig(s, values, startup, env).outcome == True <==>
              !s.halted && env.target && Processes(values, env) && Succeeds(HasProviders(values), startup, env)
    ensures WriteConfig(s, values, startup, env).outcome == True ==>
              var t := WriteConfig(s, values, startup, env).state;
              && Published(Processed(s, values, env), t, t.parser, HasProviders(values), startup, env)
              && Runs(Processed(s, values, env).runtime, t.runtime, HasProviders(values), startup, env)
  {
    ProcessedWrites(Processed(s, values, env), HasProviders(values), startup, env);
  }

  lemma WriteConfigValuesWrites(s: State, values: map<string, string>, startup: bool, env: WriteEnv, how: StateRestore)
    ensures WriteConfigValues(s, values, startup, env, how).outcome == True <==>
              !s.halted && env.target && Processes(values, env) && Succeeds(HasProviders(values), startup, env)
    ensures WriteConfigValues(s, values, startup, env, how).outcome == True ==>
              var t := WriteConfigValues(s, values, startup, env, how).state;
              && Published(Processed(s, values, env), t, t.parser, HasProviders(values), startup, env)
              && Runs(Processed(s, values, env).runtime, t.runtime, HasProviders(values), startup, env)
  {
    var u := Processed(s, values, env);
    var providers := HasProviders(values);
    assert env.target ==> WriteInner(u, values, false, startup, env) == WriteProcessed(u, providers, startup, env);
    ProcessedWrites(u, providers, startup, env);
  }

  /** Whether the configured state is reloaded after the write. */
  predicate Configures(values: map<string, string>, configure: bool) {
    configure && !HasProviders(values)
  }

  /**
   A transaction returns True exactly when no step fails.  Then, whatever the values, the file
   holds the parser p that the write staged, which is the parser in memory unless configure ran.
   */
  lemma ApplyWrites(s: State, values: map<string, string>, configure: bool, env: ApplyEnv) returns (p: Parser)
    ensures Apply(s, values, configure, env).outcome == True <==>
              && !s.halted && env.target && env.snapshot.Completed? && Processes(values, env.write)
              && env.encrypt.signal.Completed? && env.write.target && Succeeds(HasProviders(values), false, env.write)
              && (Configures(values, configure) ==> env.configure.signal.Completed?)
    ensures Apply(s, values, configure, env).outcome == True ==>
              var t := Apply(s, values, configure, env).state;
              var u := AfterEffect(Processed(s, values, env.write), env.encrypt);
              && Published(u, t, p, HasProviders(values), false, env.write)
              && (if Configures(values, configure) then
                    t.runtime == env.configure.runtime && t.parser == env.configure.parser
                  else
                    t.parser == p && Runs(u.runtime, t.runtime, HasProviders(values), false, env.write))
  {
    var u := AfterEffect(Processed(s, values, env.write), env.encrypt);
    var providers := HasProviders(values);
    var w := WriteProcessed(u, providers, false, env.write);
    assert !HasProviders(map[]) && !HasScalars(map[]);
    p := w.state.parser;
    ProcessedWrites(u, providers, false, env.write);
    if !s.halted && Processes(values, env.write) && env.encrypt.signal.Completed? && env.write.target {
      BodyWrites(s, values, configure, env);
    }
  }

  /** The guarded body, once values and secrets are processed, is the write and then configure. */
  lemma BodyWrites(s: State, values: map<string, string>, configure: bool, env: ApplyEnv)
    requires !s.halted && Processes(values, env.write) && env.encrypt.signal.Completed? && env.write.target
    ensures var u := AfterEffect(Processed(s, values, env.write), env.encrypt);
            var w := WriteProcessed(u, HasProviders(values), false, env.write);
            Body(s, values, configure, env) ==
              match w.outcome
              case False => (w.state, Raised(Error))
              case Raises(kind) => (w.state, Raised(kind))
              case True => if Configures(values, configure)
                           then (AfterEffect(w.state, env.configure), env.configure.signal)
                           else (w.state, Completed)
  {
    assert !HasProviders(map[]) && !HasScalars(map[]);
  }

  /** The replacement fails after the rename: both entry points return False with a file that was not there before. */
  lemma FalseWithNewFile(s: State, kwargs: Effect, prep: Prepared, misc: (string, string))
    requires !s.halted && s.disk.None?
    ensures var env := WriteEnv(true, kwargs, Got(prep), None, Failed(Error), misc, Completed, FailedAfter(Error),
                                Failed(Error), NoFault);
            var w, v := WriteConfig(s, map[], false, env), WriteConfigValues(s, map[], false, env, Restored);
            w.outcome == False && w.state.disk.Some? && v.outcome == False && v.state.disk.Some?
  {
    var env := WriteEnv(true, kwargs, Got(prep), None, Failed(Error), misc, Completed, FailedAfter(Error),
                        Failed(Error), NoFault);
    assert !HasProviders(map[]) && !HasScalars(map[]);
    var settings := Settings(prep, None, misc);
    var staged := Staged(s, prep, settings, |settings|);
    assert WriteProcessed(s, false, false, env) == Persist(staged, s.parser, prep, None, false, env);
    WriteConfigFailure(s, map[], false, env);
    WriteConfigValuesFailure(s, map[], false, env, Restored);
  }

  // ---------------------------------------------------------------- how a call that fails ends

  /** The write ends in an assignment that raises, or in an order or a file that cannot be read, with an interrupt. */
  predicate InterruptedOnTheWay(providers: bool, startup: bool, env: WriteEnv)
    requires env.prepare.Got?
  {
    var early := if env.prepare.value.hasCredentials then 3 else 2;
    if !startup && providers && env.order.Failed? then
      env.order.kind.Interrupt? && (env.staging.Some? ==> env.staging.value >= early)
    else
      && env.inspect == Raised(Interrupt)
      && (env.staging.Some? ==>
            env.staging.value >= early + 2 + if !startup && providers then 1 else 0)
  }

  /** The first step to fail is one whose exceptions are caught, or an interrupt that no handler sees. */
  predicate WriteEndsWith(kind: Kind, providers: bool, startup: bool, env: WriteEnv) {
    || env.prepare == Failed(kind)
    || (ReachesReplace(providers, startup, env)
        && (env.replace == FailedBefore(kind) || env.replace == FailedAfter(kind)
            || (env.replace.Replaced? && !startup && providers && env.project == Failed(kind))))
  }

  predicate WriteInterrupted(providers: bool, startup: bool, env: WriteEnv) {
    || WriteEndsWith(Interrupt, providers, startup, env)
    || (env.prepare.Got? && !ReachesReplace(providers, startup, env) && InterruptedOnTheWay(providers, startup, env))
  }

  /**
   Errors of the preparation, the replacement and the projection are answered with False; all
   others, and every interrupt, escape.
   */
  lemma WriteAnswers(s: State, providers: bool, startup: bool, env: WriteEnv)
    ensures var o := WriteProcessed(s, providers, startup, env).outcome;
            && (o == False <==> WriteEndsWith(Error, providers, startup, env))
            && (o == Raises(Interrupt) <==> WriteInterrupted(providers, startup, env))
  {
    if env.prepare.Got? {
      var prep, ordering := env.prepare.value, WrittenOrder(providers, startup, env);
      SettingsAre(prep, ordering, env.misc);
      SettingsAre(prep, None, env.misc);
    }
  }

  /** A write that raises leaves memory alone but for one flag, and the first so many assignments in the parser. */
  lemma RaisedWrite(s: State, providers: bool, startup: bool, env: WriteEnv)
    requires WriteProcessed(s, providers, startup, env).outcome.Raises?
    ensures var t := WriteProcessed(s, providers, startup, env).state;
            && t == s.(disk := t.disk, parser := t.parser,
                       runtime := s.runtime.(encryptPasswords := t.runtime.encryptPasswords))
            && (env.prepare.Failed? ==> t == s)
            && (env.prepare.Got? ==> exists k: nat :: AssignedUpTo(s, t, providers, startup, env, k))
  {
    if env.prepare.Got? {
      if !startup && providers && env.order.Failed? {
        RaisedBeforeOrder(s, env);
      } else {
        RaisedAfterOrder(s, providers, startup, env);
      }
    }
  }

  lemma RaisedBeforeOrder(s: State, env: WriteEnv)
    requires env.prepare.Got? && env.order.Failed?
    ensures var t := WriteProcessed(s, true, false, env).state;
            && t == s.(parser := t.parser, runtime := s.runtime.(encryptPasswords := t.runtime.encryptPasswords))
            && exists k: nat :: AssignedUpTo(s, t, true, false, env, k)
  {
    var prep := env.prepare.value;
    var early := if prep.hasCredentials then 3 else 2;
    SettingsAre(prep, None, env.misc);
    var k := if env.staging.Some? && env.staging.value < early then env.staging.value else early;
    assert AssignedUpTo(s, WriteProcessed(s, true, false, env).state, true, false, env, k);
  }

  lemma RaisedAfterOrder(s: State, providers: bool, startup: bool, env: WriteEnv)
    requires env.prepare.Got? && (!startup && providers ==> env.order.Got?)
    requires WriteProcessed(s, providers, startup, env).outcome.Raises?
    ensures var t := WriteProcessed(s, providers, startup, env).state;
            && t == s.(disk := t.disk, parser := t.parser,
                       runtime := s.runtime.(encryptPasswords := t.runtime.encryptPasswords))
            && exists k: nat :: AssignedUpTo(s, t, providers, startup, env, k)
  {
    var prep, ordering := env.prepare.value, WrittenOrder(providers, startup, env);
    var settings, t := Settings(prep, ordering, env.misc), WriteProcessed(s, providers, startup, env).state;
    var k := if env.staging.Some? && env.staging.value < |settings| then env.staging.value else |settings|;
    SettingsAre(prep, ordering, env.misc);
    PersistRaises(Staged(s, prep, settings, k), s.parser, prep, ordering, !startup && providers, env);
    assert t == Staged(s, prep, settings, k).(disk := t.disk);
    assert AssignedUpTo(s, t, providers, startup, env, k);
  }

  lemma PersistRaises(s: State, before: Parser, prep: Prepared, ordering: Option<Ordering>, project: bool,
                      env: WriteEnv)
    ensures var r := Persist(s, before, prep, ordering, project, env);
            r.outcome.Raises? ==> r.state == s.(disk := r.state.disk)
  {
  }

  ghost predicate AssignedUpTo(s: State, t: State, providers: bool, startup: bool, env: WriteEnv, k: nat)
    requires env.prepare.Got?
  {
    var prep := env.prepare.value;
    var settings := Settings(prep, WrittenOrder(providers, startup, env), env.misc);
    && k <= |settings| && t.parser == PutAll(s.parser, settings[..k])
    && (t.runtime.encryptPasswords <==> s.runtime.encryptPasswords || (prep.hasCredentials && k >= 2))
  }

  /** writeconfig_values answers every error with False, and lets interrupts through with nothing put back. */
  lemma WriteConfigValuesAnswers(s: State, values: map<string, string>, startup: bool, env: WriteEnv, how: StateRestore)
    requires !s.halted
    ensures var r := WriteConfigValues(s, values, startup, env, how);
            && r.outcome != Raises(Error)
            && (r.outcome == Raises(Interrupt) <==>
                  || (HasScalars(values) && env.kwargs.signal == Raised(Interrupt))
                  || (Processes(values, env) && env.target && WriteInterrupted(HasProviders(values), startup, env)))
            && (r.outcome == Raises(Interrupt) && Processes(values, env) ==>
                  r == WriteProcessed(Processed(s, values, env), HasProviders(values), startup, env))
  {
    var u := Processed(s, values, env);
    var providers := HasProviders(values);
    assert env.target ==> WriteInner(u, values, false, startup, env) == WriteProcessed(u, providers, startup, env);
    WriteAnswers(u, providers, startup, env);
  }

  /** An interrupt is the first failure of the guarded part of a transaction. */
  predicate TransactionInterrupted(values: map<string, string>, configure: bool, env: ApplyEnv) {
    || (HasScalars(values) && env.write.kwargs.signal == Raised(Interrupt))
    || (Processes(values, env.write)
        && (|| env.encrypt.signal == Raised(Interrupt)
            || (env.encrypt.signal.Completed? && env.write.target
                && (|| WriteInterrupted(HasProviders(values), false, env.write)
                    || (Succeeds(HasProviders(values), false, env.write) && Configures(values, configure)
                        && env.configure.signal == Raised(Interrupt))))))
  }

  /** A transaction answers errors with False, except when the snapshot raises; interrupts always escape. */
  lemma ApplyAnswers(s: State, values: map<string, string>, configure: bool, env: ApplyEnv)
    ensures var o := Apply(s, values, configure, env).outcome;
            && (o == Raises(Error) <==> !s.halted && env.target && env.snapshot == Raised(Error))
            && (o == Raises(Interrupt) <==>
                  && !s.halted && env.target
                  && (|| env.snapshot == Raised(Interrupt)
                      || (env.snapshot.Completed? && TransactionInterrupted(values, configure, env))))
  {
    var u := AfterEffect(Processed(s, values, env.write), env.encrypt);
    var providers := HasProviders(values);
    assert !HasProviders(map[]) && !HasScalars(map[]);
    WriteAnswers(u, providers, false, env.write);
    ProcessedWrites(u, providers, false, env.write);
    if !s.halted && Processes(values, env.write) && env.encrypt.signal.Completed? && env.write.target {
      BodyWrites(s, values, configure, env);
    }
  }

  /** Which values make an update one of the providers, and which are the others. */
  lemma ProviderValues(values: map<string, string>)
    ensures HasProviders(values) <==> "EXTRA_NEWZNABS" in values || "EXTRA_TORZNABS" in values
    ensures HasScalars(values) <==> exists key :: key in values && key != "EXTRA_NEWZNABS" && key != "EXTRA_TORZNABS"
  {
    assert "EXTRA_NEWZNABS" in PROVIDER_EXTRA_FIELDS && "EXTRA_TORZNABS" in PROVIDER_EXTRA_FIELDS;
    if HasScalars(values) {
      var key :| key in values && key !in PROVIDER_EXTRA_FIELDS;
    }
  }

  // ---------------------------------------------------------------- the text of the file

  /** Names without line ends or an equals sign, values without line ends. */
  predicate Plain(s: Setting) {
    '\n' !in s.section && '\n' !in s.option && '=' !in s.option && '\n' !in s.value
  }

  lemma {:induction false} CutFirst(c: char, a: string, x: string, b: string, y: string)
    requires c !in a && c !in b && a + [c] + x == b + [c] + y
    ensures a == b && x == y
  {
    var s, r := a + [c] + x, b + [c] + y;
    assert a != "" ==> s[0] in a;
    assert b != "" ==> r[0] in b;
    if a == "" || b == "" {
      assert s[1..] == x && r[1..] == y;
    } else {
      assert s[0] == a[0] && r[0] == b[0];
      assert s[1..] == a[1..] + [c] + x && r[1..] == b[1..] + [c] + y;
      CutFirst(c, a[1..], x, b[1..], y);
      assert a == [a[0]] + a[1..] && b == [b[0]] + b[1..];
    }
  }

  lemma RenderFirst(p: Parser, q: Parser)
    requires p != [] && q != [] && Plain(p[0]) && Plain(q[0]) && Render(p) == Render(q)
    ensures p[0] == q[0] && Render(p[1..]) == Render(q[1..])
  {
    var a, b := p[0], q[0];
    var x, y := " " + a.value + "\n" + Render(p[1..]), " " + b.value + "\n" + Render(q[1..]);
    RenderedAs(p);
    RenderedAs(q);
    CutFirst('\n', "[" + a.section + "]", a.option + " " + "=" + x, "[" + b.section + "]", b.option + " " + "=" + y);
    assert ("[" + a.section + "]")[1..|a.section| + 1] == a.section;
    assert ("[" + b.section + "]")[1..|b.section| + 1] == b.section;
    CutFirst('=', a.option + " ", x, b.option + " ", y);
    assert (a.option + " ")[..|a.option|] == a.option && (b.option + " ")[..|b.option|] == b.option;
    CutFirst('\n', " " + a.value, Render(p[1..]), " " + b.value, Render(q[1..]));
    assert (" " + a.value)[1..] == a.value && (" " + b.value)[1..] == b.value;
  }

  lemma RenderedAs(p: Parser)
    requires p != []
    ensures var rest := " " + p[0].value + "\n" + Render(p[1..]);
            Render(p) == "[" + p[0].section + "]" + "\n" + (p[0].option + " " + "=" + rest)
  {
  }

  /** The file determines every option: two parsers of plain settings with the same text are the same. */
  lemma {:induction false} RenderIsInjective(p: Parser, q: Parser)
    requires (forall s :: s in p ==> Plain(s)) && (forall s :: s in q ==> Plain(s))
    requires Render(p) == Render(q)
    ensures p == q
  {
    if p != [] && q != [] {
      assert p[0] in p && q[0] in q;
      RenderFirst(p, q);
      RenderIsInjective(p[1..], q[1..]);
      assert p == [p[0]] + p[1..] && q == [q[0]] + q[1..];
    }
  }

  // ---------------------------------------------------------------- the store itself

  class Store {
    var runtime: Runtime
    var parser: Parser
    var disk: Option<string>
    var table: seq<Searches.Row>
    var startId: int
    var halted: bool

    constructor (s: State)
      ensures Snapshot() == s
    {
      runtime, parser, disk, table := s.runtime, s.parser, s.disk, s.table;
      startId, halted := s.startId, s.halted;
    }

    function Snapshot(): State
      reads this
    {
      State(runtime, parser, disk, table, startId, halted)
    }

    method RunOpaque(e: Effect)
      modifies this
      ensures Snapshot() == AfterEffect(old(Snapshot()), e)
    {
      runtime, parser := e.runtime, e.parser;
    }

    method SetOption(s: Setting)
      modifies this`parser
      ensures parser == Put(old(parser), s)
    {
      var i := 0;
      while i < |parser| && !(parser[i].section == s.section && parser[i].option == s.option)
        invariant 0 <= i <= |parser|
        invariant Put(parser, s) == parser[..i] + Put(parser[i..], s)
      {
        assert parser[i..][1..] == parser[i + 1..];
        assert parser[..i] + [parser[i]] == parser[..i + 1];
        i := i + 1;
      }
      if i == |parser| {
        parser := parser + [s];
      } else {
        assert parser[i..][1..] == parser[i + 1..];
        parser := parser[..i] + [s] + parser[i + 1..];
      }
    }

    /** Assigns the options in order; with a fault the loop stops there and the exception escapes. */
    method StageSettings(prep: Prepared, settings: seq<Setting>, count: nat)
      requires count <= |settings|
      modifies this`parser, this`runtime
      ensures Snapshot() == Staged(old(Snapshot()), prep, settings, count)
    {
      var k := 0;
      while k < count
        invariant 0 <= k <= count
        invariant Snapshot() == Staged(old(Snapshot()), prep, settings, k)
      {
        SetOption(settings[k]);
        assert settings[..k + 1][..k] == settings[..k];
        k := k + 1;
        if k == 2 && prep.hasCredentials {
          runtime := runtime.(encryptPasswords := true);
        }
      }
    }

    method PublishRuntime(prep: Prepared, ordering: Option<Ordering>)
      modifies this`runtime, this`startId
      ensures Snapshot() == Publish(old(Snapshot()), prep, ordering)
    {
      runtime := runtime.(newznabs := prep.newznabs, torznabs := prep.torznabs, tokens := prep.tokens);
      var entries := prep.newznabs + prep.torznabs;
      for i := 0 to |entries|
        invariant startId == MaxId(old(startId), entries[..i])
        invariant Snapshot() == old(Snapshot()).(runtime := runtime, startId := startId)
        invariant runtime == old(runtime).(newznabs := prep.newznabs, torznabs := prep.torznabs, tokens := prep.tokens)
      {
        assert entries[..i + 1][..i] == entries[..i];
        if entries[i].id > startId {
          startId := entries[i].id;
        }
      }
      assert entries[..|entries|] == entries;
      if ordering.Some? {
        runtime := runtime.(order := Some(ordering.value.order));
      }
    }

    method RestoreConfigFile(previous: Option<string>, fault: FileFault) returns (ok: bool)
      modifies this`disk
      ensures (disk, ok) == RestoreFile(old(disk), previous, fault)
    {
      if fault.FaultBefore? {
        return false;
      }
      if disk == previous {
        return true;
      }
      disk := previous;
      return fault.NoFault?;
    }

    method RestoreTransactionState(previous: State, how: StateRestore) returns (ok: bool)
      modifies this`runtime, this`parser
      ensures Snapshot() == RestoreState(old(Snapshot()), previous, how)
      ensures ok == how.Restored?
    {
      match how
      case Restored =>
        runtime, parser := previous.runtime, previous.parser;
        ok := true;
      case Partial(r, p) =>
        runtime, parser := r, p;
        ok := false;
    }

    method PersistStaged(before: Parser, prep: Prepared, ordering: Option<Ordering>, project: bool, env: WriteEnv)
      returns (outcome: Outcome)
      modifies this
      ensures Result(Snapshot(), outcome) == Persist(old(Snapshot()), before, prep, ordering, project, env)
    {
      var original := disk;
      var text := Render(parser);
      match env.replace
      case FailedBefore(kind) =>
        if kind.Interrupt? {
          return Raises(Interrupt);
        }
        parser := before;
        return False;
      case FailedAfter(kind) =>
        disk := Some(text);
        if kind.Interrupt? {
          return Raises(Interrupt);
        }
        parser := before;
        return False;
      case Replaced =>
        disk := Some(text);
        if project {
          match env.project
          case Got(rows) => table := rows;
          case Failed(kind) =>
            if kind.Interrupt? {
              return Raises(Interrupt);
            }
            parser := before;
            var _ := RestoreConfigFile(original, env.undo);
            return False;
        }
        PublishRuntime(prep, ordering);
        return True;
    }

    method WriteProcessedValues(providers: bool, startup: bool, env: WriteEnv) returns (outcome: Outcome)
      modifies this
      ensures Result(Snapshot(), outcome) == WriteProcessed(old(Snapshot()), providers, startup, env)
    {
      if env.prepare.Failed? {
        return if env.prepare.kind.Interrupt? then Raises(Interrupt) else False;
      }
      var prep := env.prepare.value;
      var before := parser;
      var sequenced := !startup && providers;
      var early := if prep.hasCredentials then 3 else 2;
      if sequenced && env.order.Failed? && !(env.staging.Some? && env.staging.value < early) {
        StageSettings(prep, Settings(prep, None, env.misc), early);
        return Raises(env.order.kind);
      }
      var ordering := if sequenced && env.order.Got? then Some(env.order.value) else None;
      var settings := Settings(prep, ordering, env.misc);
      if env.staging.Some? && env.staging.value < |settings| {
        StageSettings(prep, settings, env.staging.value);
        return Raises(Error);
      }
      StageSettings(prep, settings, |settings|);
      if env.inspect.Raised? {
        return Raises(env.inspect.kind);
      }
      outcome := PersistStaged(before, prep, ordering, sequenced, env);
    }

    method WriteUnlocked(values: map<string, string>, process: bool, startup: bool, env: WriteEnv)
      returns (outcome: Outcome)
      modifies this
      ensures Result(Snapshot(), outcome) == WriteInner(old(Snapshot()), values, process, startup, env)
    {
      if !env.target {
        return False;
      }
      if process && HasScalars(values) {
        RunOpaque(env.kwargs);
        if env.kwargs.signal.Raised? {
          return Raises(env.kwargs.signal.kind);
        }
      }
      outcome := WriteProcessedValues(HasProviders(values), startup, env);
    }

    method Write(values: map<string, string>, startup: bool, env: WriteEnv) returns (outcome: Outcome)
      modifies this
      ensures Result(Snapshot(), outcome) == WriteConfig(old(Snapshot()), values, startup, env)
    {
      if halted {
        return False;
      }
      outcome := WriteUnlocked(values, true, startup, env);
    }

    method WriteValues(values: map<string, string>, startup: bool, env: WriteEnv, how: StateRestore)
      returns (outcome: Outcome)
      modifies this
      ensures Result(Snapshot(), outcome) == WriteConfigValues(old(Snapshot()), values, startup, env, how)
    {
      if halted {
        return False;
      }
      var previous := Snapshot();
      var scalars := HasScalars(values);
      if scalars {
        RunOpaque(env.kwargs);
      }
      if scalars && env.kwargs.signal.Raised? {
        outcome := Raises(env.kwargs.signal.kind);
      } else {
        outcome := WriteUnlocked(values, false, startup, env);
      }
      if outcome != True && outcome != Raises(Interrupt) {
        var _ := RestoreTransactionState(previous, how);
        outcome := False;
      }
    }

    /** The guarded body of ApplyTransaction. */
    method ApplyBody(values: map<string, string>, configure: bool, env: ApplyEnv) returns (signal: Signal)
      requires !halted
      modifies this
      ensures (Snapshot(), signal) == Body(old(Snapshot()), values, configure, env)
    {
      var providers := HasProviders(values);
      if HasScalars(values) {
        RunOpaque(env.write.kwargs);
        if env.write.kwargs.signal.Raised? {
          return env.write.kwargs.signal;
        }
      }
      RunOpaque(env.encrypt);
      if env.encrypt.signal.Raised? {
        return env.encrypt.signal;
      }
      var persisted;
      if providers {
        persisted := WriteUnlocked(values, false, false, env.write);
      } else {
        persisted := Write(map[], false, env.write);
      }
      match persisted
      case False => return Raised(Error);
      case Raises(kind) => return Raised(kind);
      case True =>
        if configure && !providers {
          RunOpaque(env.configure);
          return env.configure.signal;
        }
        return Completed;
    }

    method ApplyTransaction(values: map<string, string>, configure: bool, env: ApplyEnv) returns (outcome: Outcome)
      modifies this
      ensures Result(Snapshot(), outcome) == Apply(old(Snapshot()), values, configure, env)
    {
      if halted || !env.target {
        return False;
      }
      if env.snapshot.Raised? {
        return Raises(env.snapshot.kind);
      }
      var previous := Snapshot();
      var signal := ApplyBody(values, configure, env);
      if signal.Completed? {
        return True;
      }
      BodyFrame(previous, values, configure, env);
      startId := previous.startId;
      var durable := env.compareFails || disk != previous.disk;
      var runtimeOk := RestoreTransactionState(previous, env.restoreState);
      var fileOk := RestoreConfigFile(previous.disk, env.restoreFile);
      if durable && !(runtimeOk && fileOk) {
        halted := true;
      }
      return if signal.kind.Interrupt? then Raises(Interrupt) else False;
    }
  }
}
