/**
 Crash atomicity of _atomic_replace_file: write a temporary file, sync it, rename it over the
 target, sync the directory.

 The disk keeps, besides what running programs see, what a crash may leave behind: file data
 is only certain once synced, and after a crash the directory is any of the ones it has been
 since it was last synced.  A rename changes the directory in one step.  Calls may follow one
 another whatever became of the earlier ones, as the rollback does after a failed directory
 sync.
 */
module AtomicReplace {
  import opened Options

  type Bytes = seq<int>

  /** A temporary file has a name of its own, made from its number. */
  datatype Name = Target | Temp(file: nat)

  /**
   data: file contents now; stable: synced contents; dir: the directory now; pending: the
   directories a crash may leave.
   */
  datatype Disk = Disk(
    data: map<nat, Bytes>,
    stable: map<nat, Bytes>,
    dir: map<Name, nat>,
    pending: seq<map<Name, nat>>)

  // ---------------------------------------------------------------- system calls

  function Entered(d: Disk, dir: map<Name, nat>): Disk {
    d.(dir := dir, pending := d.pending + [dir])
  }

  function CreateTemp(d: Disk, file: nat): Disk {
    Entered(d.(data := d.data[file := []]), d.dir[Temp(file) := file])
  }

  function Append(d: Disk, file: nat, chunk: Bytes): Disk
    requires file in d.data
  {
    d.(data := d.data[file := d.data[file] + chunk])
  }

  function SyncFile(d: Disk, file: nat): Disk
    requires file in d.data
  {
    d.(stable := d.stable[file := d.data[file]])
  }

  function Rename(d: Disk, file: nat): Disk {
    Entered(d, (d.dir - {Temp(file)})[Target := file])
  }

  function Unlink(d: Disk, name: Name): Disk {
    if name in d.dir then Entered(d, d.dir - {name}) else d
  }

  function SyncDirectory(d: Disk): Disk {
    d.(pending := [d.dir])
  }

  /** What a program that opens the target reads. */
  function Read(d: Disk): Option<Bytes> {
    if Target in d.dir && d.dir[Target] in d.data then Some(d.data[d.dir[Target]]) else None
  }

  // ---------------------------------------------------------------- crashes

  /** The target may hold c if a crash leaves this directory: unsynced data may turn out to be anything. */
  predicate Leaves(d: Disk, dir: map<Name, nat>, c: Option<Bytes>) {
    if Target in dir then c.Some? && (dir[Target] in d.stable ==> c.value == d.stable[dir[Target]]) else c.None?
  }

  predicate MayRecover(d: Disk, c: Option<Bytes>) {
    exists k :: 0 <= k < |d.pending| && Leaves(d, d.pending[k], c)
  }

  predicate Synced(d: Disk, file: nat) {
    file in d.data && file in d.stable && d.stable[file] == d.data[file]
  }

  /** In every directory a crash may leave, the target is a synced file or does not exist. */
  predicate Sound(d: Disk) {
    && d.pending != [] && d.pending[|d.pending| - 1] == d.dir
    && forall k :: 0 <= k < |d.pending| && Target in d.pending[k] ==> Synced(d, d.pending[k][Target])
  }

  /** No directory change is in flight. */
  predicate Settled(d: Disk) {
    Sound(d) && d.pending == [d.dir]
  }

  /** What is read now is also among what a crash may leave. */
  lemma ReadMayBeRecovered(d: Disk)
    requires Sound(d)
    ensures MayRecover(d, Read(d))
  {
    assert Leaves(d, d.pending[|d.pending| - 1], Read(d));
  }

  lemma SettledRecovers(d: Disk)
    requires Settled(d)
    ensures forall c :: MayRecover(d, c) <==> c == Read(d)
  {
    assert Leaves(d, d.pending[0], Read(d));
  }

  // ---------------------------------------------------------------- before the rename

  /** The directory maps the target to the file it had at the start, or to nothing if it had none. */
  predicate SameTarget(dir: map<Name, nat>, start: map<Name, nat>) {
    (Target in dir <==> Target in start) && (Target in start ==> dir[Target] == start[Target])
  }

  /** Until the rename, the target and all files of the start are as they were, in every directory a crash may leave. */
  predicate Before(d: Disk, start: Disk) {
    && start.pending <= d.pending && d.pending != [] && d.pending[|d.pending| - 1] == d.dir
    && SameTarget(d.dir, start.dir)
    && (forall k :: |start.pending| <= k < |d.pending| ==> SameTarget(d.pending[k], start.dir))
    && (forall f :: f in start.data && f in start.stable ==>
          f in d.data && d.data[f] == start.data[f] && f in d.stable && d.stable[f] == start.stable[f])
  }

  predicate IsNew(file: nat, d: Disk) {
    file !in d.data && file !in d.stable && Temp(file) !in d.dir
  }

  lemma CreateStaysBefore(d: Disk, start: Disk, file: nat)
    requires Before(d, start) && IsNew(file, start)
    ensures Before(CreateTemp(d, file), start)
  {
  }

  lemma AppendStaysBefore(d: Disk, start: Disk, file: nat, chunk: Bytes)
    requires Before(d, start) && IsNew(file, start) && file in d.data
    ensures Before(Append(d, file, chunk), start) && Before(SyncFile(d, file), start)
  {
  }

  lemma UnlinkStaysBefore(d: Disk, start: Disk, file: nat)
    requires Before(d, start)
    ensures Before(Unlink(d, Temp(file)), start)
  {
  }

  /** A directory of the start, or one with its target, leaves what the start could leave. */
  lemma LeavesAsBefore(d: Disk, start: Disk, k: nat, c: Option<Bytes>)
    requires Sound(start) && Before(d, start) && k < |d.pending|
    ensures Leaves(d, d.pending[k], c) <==>
            Leaves(start, if k < |start.pending| then start.pending[k] else start.dir, c)
    ensures Target in d.pending[k] ==> Synced(d, d.pending[k][Target])
  {
    if k < |start.pending| {
      assert d.pending[k] == start.pending[k];
    } else {
      assert start.pending[|start.pending| - 1] == start.dir;
    }
  }

  /** Up to the rename a crash leaves what it could have left at the start, and readers see what they saw. */
  lemma BeforeIsOld(d: Disk, start: Disk)
    requires Sound(start) && Before(d, start)
    ensures Sound(d) && Read(d) == Read(start)
    ensures forall c :: MayRecover(d, c) <==> MayRecover(start, c)
  {
    forall k, c | 0 <= k < |d.pending|
      ensures Leaves(d, d.pending[k], c) ==> MayRecover(start, c)
      ensures Target in d.pending[k] ==> Synced(d, d.pending[k][Target])
    {
      LeavesAsBefore(d, start, k, c);
      assert start.pending[|start.pending| - 1] == start.dir;
    }
    forall c | MayRecover(start, c) ensures MayRecover(d, c) {
      var k :| 0 <= k < |start.pending| && Leaves(start, start.pending[k], c);
      LeavesAsBefore(d, start, k, c);
    }
    LeavesAsBefore(d, start, |d.pending| - 1, None);
  }

  // ---------------------------------------------------------------- the rename

  /** The renamed directory adds what the renamed file may hold to what a crash may leave. */
  lemma RenameAdds(d: Disk, start: Disk, file: nat, c: Option<Bytes>)
    requires Sound(start) && Before(d, start)
    ensures MayRecover(Rename(d, file), c) <==>
            MayRecover(start, c) || (c.Some? && (file in d.stable ==> c.value == d.stable[file]))
  {
    var t := Rename(d, file);
    var n := |d.pending|;
    BeforeIsOld(d, start);
    assert t.pending[n] == t.dir && t.dir[Target] == file;
    assert Leaves(t, t.pending[n], c) <==> c.Some? && (file in d.stable ==> c.value == d.stable[file]);
    if MayRecover(d, c) {
      var k :| 0 <= k < n && Leaves(d, d.pending[k], c);
      assert t.pending[k] == d.pending[k] && Leaves(t, t.pending[k], c);
    }
    if MayRecover(t, c) {
      var k :| 0 <= k < |t.pending| && Leaves(t, t.pending[k], c);
      assert k < n ==> t.pending[k] == d.pending[k] && Leaves(d, d.pending[k], c);
    }
  }

  /** A length that no content a crash may leave has reached. */
  lemma {:induction false} LongerThanAll(d: Disk, n: nat) returns (length: nat)
    requires Sound(d) && n <= |d.pending|
    ensures forall k, c: Option<Bytes> :: 0 <= k < n && Leaves(d, d.pending[k], c) && c.Some? ==> |c.value| < length
  {
    length := 0;
    if n > 0 {
      length := LongerThanAll(d, n - 1);
      var dir := d.pending[n - 1];
      if Target in dir {
        var size := |d.stable[dir[Target]]|;
        length := length + size + 1;
      }
    }
  }

  /**
   The file sync is what makes the rename safe: only synced content may be renamed, and only the
   new content or one that a crash could leave already.
   */
  lemma RenameNeedsSync(d: Disk, start: Disk, file: nat, new': Bytes)
    requires Sound(start) && Before(d, start)
    ensures (forall c :: MayRecover(Rename(d, file), c) ==> MayRecover(start, c) || c == Some(new')) <==>
            file in d.stable && (d.stable[file] == new' || MayRecover(start, Some(d.stable[file])))
  {
    forall c
      ensures MayRecover(Rename(d, file), c) <==>
              MayRecover(start, c) || (c.Some? && (file in d.stable ==> c.value == d.stable[file]))
    {
      RenameAdds(d, start, file, c);
    }
    if file in d.stable {
      assert MayRecover(Rename(d, file), Some(d.stable[file]));
    } else {
      var n := LongerThanAll(start, |start.pending|);
      var junk: Bytes := seq(n + |new'| + 1, i => 0);
      assert MayRecover(Rename(d, file), Some(junk));
      assert !MayRecover(start, Some(junk)) && junk != new';
    }
  }

  /** The state once the new content is renamed into place, before the directory is synced. */
  lemma RenamedState(d: Disk, start: Disk, file: nat, new': Bytes)
    requires Sound(start) && Before(d, start) && Synced(d, file) && d.stable[file] == new'
    ensures var t := Rename(d, file);
            && Sound(t) && Read(t) == Some(new')
            && forall c :: MayRecover(t, c) <==> MayRecover(start, c) || c == Some(new')
  {
    var t := Rename(d, file);
    BeforeIsOld(d, start);
    assert forall k :: 0 <= k < |d.pending| ==> t.pending[k] == d.pending[k];
    forall c ensures MayRecover(t, c) <==> MayRecover(start, c) || c == Some(new') {
      RenameAdds(d, start, file, c);
    }
  }

  /** After the directory sync any crash leaves what is read now. */
  lemma SyncedState(d: Disk)
    requires Sound(d)
    ensures var t := SyncDirectory(d);
            Settled(t) && Read(t) == Read(d) && forall c :: MayRecover(t, c) <==> c == Read(d)
  {
    SettledRecovers(SyncDirectory(d));
  }

  /** The target's entry is gone, before the directory is synced. */
  lemma RemovedState(d: Disk)
    requires Sound(d) && Target in d.dir
    ensures var t := Unlink(d, Target);
            Sound(t) && Read(t).None? && forall c :: MayRecover(t, c) <==> MayRecover(d, c) || c == None
  {
    var t := Unlink(d, Target);
    assert forall k :: 0 <= k < |d.pending| ==> t.pending[k] == d.pending[k];
    assert t.pending[|d.pending|] == t.dir;
    forall c ensures MayRecover(t, c) <==> MayRecover(d, c) || c == None {
      if MayRecover(d, c) {
        var k :| 0 <= k < |d.pending| && Leaves(d, d.pending[k], c);
        assert Leaves(t, t.pending[k], c);
      }
      if MayRecover(t, c) {
        var k :| 0 <= k < |t.pending| && Leaves(t, t.pending[k], c);
        assert k < |d.pending| ==> Leaves(d, d.pending[k], c);
      }
      assert Leaves(t, t.pending[|d.pending|], None);
    }
  }

  // ---------------------------------------------------------------- runs of calls

  /** Where the environment makes a call fail; NoFault lets it complete. */
  datatype Fault = NoFault | AtCreate | AtWrite(done: nat) | AtSync | AtRename | AtDirectorySync

  /** How a call ends; the two ways of raising differ in whether the target was replaced. */
  datatype Outcome = Completed | RaisedBefore | RaisedAfter

  /** A call that was to give the target this content, or to remove it. */
  datatype Attempt = Attempt(content: Option<Bytes>, outcome: Outcome)

  /** What readers see after the calls: the content of the last one that got as far as the rename. */
  function Current(initial: Option<Bytes>, attempts: seq<Attempt>): Option<Bytes> {
    if attempts == [] then initial
    else
      var last := attempts[|attempts| - 1];
      if last.outcome.RaisedBefore? then Current(initial, attempts[..|attempts| - 1]) else last.content
  }

  /** What a crash after the calls may leave. */
  function Possible(initial: Option<Bytes>, attempts: seq<Attempt>): set<Option<Bytes>> {
    if attempts == [] then {initial}
    else
      var last := attempts[|attempts| - 1];
      match last.outcome
      case Completed => {last.content}
      case RaisedBefore => Possible(initial, attempts[..|attempts| - 1])
      case RaisedAfter => Possible(initial, attempts[..|attempts| - 1]) + {last.content}
  }

  /** No call from k on has completed. */
  predicate NoneCompleted(attempts: seq<Attempt>, k: nat) {
    forall j :: k <= j < |attempts| ==> !attempts[j].outcome.Completed?
  }

  /** The content comes from a call that replaced the target and after which none completed. */
  predicate Unsettled(attempts: seq<Attempt>, c: Option<Bytes>) {
    exists k :: 0 <= k < |attempts| && !attempts[k].outcome.RaisedBefore? && attempts[k].content == c
                && NoneCompleted(attempts, k + 1)
  }

  /**
   Over any run of calls, with failures anywhere, a crash leaves the whole content of the last
   completed call, or the initial one if none has, or that of a later call whose directory sync
   failed; and each of these is possible.
   */
  lemma {:induction false} PossibleExactly(initial: Option<Bytes>, attempts: seq<Attempt>, c: Option<Bytes>)
    ensures c in Possible(initial, attempts) <==>
            Unsettled(attempts, c) || (c == initial && NoneCompleted(attempts, 0))
  {
    if attempts != [] {
      var n := |attempts| - 1;
      var front, last := attempts[..n], attempts[n];
      PossibleExactly(initial, front, c);
      if last.outcome.Completed? {
        assert NoneCompleted(attempts, n + 1);
        assert forall k :: 0 <= k <= n ==> !NoneCompleted(attempts, k);
      } else {
        forall k | 0 <= k <= n ensures NoneCompleted(attempts, k) <==> NoneCompleted(front, k) {
          assert forall j :: 0 <= j < n ==> front[j] == attempts[j];
        }
        UnsettledStep(attempts, c);
      }
    }
  }

  lemma UnsettledStep(attempts: seq<Attempt>, c: Option<Bytes>)
    requires attempts != [] && !attempts[|attempts| - 1].outcome.Completed?
    ensures var front, last := attempts[..|attempts| - 1], attempts[|attempts| - 1];
            Unsettled(attempts, c) <==> Unsettled(front, c) || (last.outcome.RaisedAfter? && last.content == c)
  {
    var n := |attempts| - 1;
    var front := attempts[..n];
    assert forall j :: 0 <= j < n ==> front[j] == attempts[j];
    assert forall k :: 0 <= k <= n ==> (NoneCompleted(attempts, k) <==> NoneCompleted(front, k));
    assert NoneCompleted(attempts, n + 1);
    if Unsettled(front, c) {
      var k :| 0 <= k < n && !front[k].outcome.RaisedBefore? && front[k].content == c && NoneCompleted(front, k + 1);
      assert attempts[k] == front[k] && NoneCompleted(attempts, k + 1);
    }
  }

  lemma {:induction false} CurrentIsPossible(initial: Option<Bytes>, attempts: seq<Attempt>)
    ensures Current(initial, attempts) in Possible(initial, attempts)
  {
    if attempts != [] {
      CurrentIsPossible(initial, attempts[..|attempts| - 1]);
    }
  }

  // ---------------------------------------------------------------- the calls

  function Concat(chunks: seq<Bytes>): Bytes {
    if chunks == [] then [] else Concat(chunks[..|chunks| - 1]) + chunks[|chunks| - 1]
  }

  /**
   A point of a call: a crash leaves what it could have left at the start or the new content, and
   readers see one of them whole.
   */
  ghost predicate Intact(d: Disk, start: Disk, new': Option<Bytes>) {
    && (forall c :: MayRecover(d, c) ==> MayRecover(start, c) || c == new')
    && (Read(d) == Read(start) || Read(d) == new')
  }

  class Volume {
    var disk: Disk
    /** Every state the disk has been in: the points at which the machine may crash. */
    ghost var points: seq<Disk>
    ghost var initial: Option<Bytes>
    /** Every call so far. */
    ghost var attempts: seq<Attempt>

    constructor (d: Disk)
      requires Settled(d)
      ensures Valid() && disk == d && points == [d] && initial == Read(d) && attempts == []
    {
      disk := d;
      points := [d];
      initial := Read(d);
      attempts := [];
      SettledRecovers(d);
    }

    /** The disk is what the run of calls so far makes it. */
    ghost predicate Valid()
      reads this
    {
      && Sound(disk) && Read(disk) == Current(initial, attempts)
      && forall c :: MayRecover(disk, c) <==> c in Possible(initial, attempts)
    }

    method Call(d: Disk)
      modifies `disk, `points
      ensures disk == d && points == old(points) + [d]
    {
      disk := d;
      points := points + [d];
    }

    ghost predicate IntactSince(n: nat, start: Disk, new': Option<Bytes>)
      reads this
    {
      n <= |points| && forall i :: n <= i < |points| ==> Intact(points[i], start, new')
    }

    /** A call before the rename. */
    method CallBefore(d: Disk, ghost start: Disk, ghost n: nat, ghost new': Option<Bytes>)
      requires Sound(start) && Before(d, start) && IntactSince(n, start, new')
      modifies `disk, `points
      ensures disk == d && IntactSince(n, start, new')
    {
      BeforeIsOld(d, start);
      Call(d);
    }

    /**
     Replaces the target by the concatenation of the chunks, whatever became of earlier calls.
     At every point a crash leaves what it could have left before the call, or the new content;
     the outcome decides, as Possible says, which of these remain.  A call that raises before
     the rename removes its temporary file, unless the unlink fails as well.
     */
    method AtomicReplaceFile(file: nat, chunks: seq<Bytes>, fault: Fault, cleanup: bool) returns (outcome: Outcome)
      requires Valid() && IsNew(file, disk)
      modifies this
      ensures Valid() && initial == old(initial)
      ensures attempts == old(attempts) + [Attempt(Some(Concat(chunks)), outcome)]
      ensures IntactSince(|old(points)|, old(disk), Some(Concat(chunks)))
      ensures outcome == match fault
                         case NoFault => Completed
                         case AtWrite(done) => if done <= |chunks| then RaisedBefore else Completed
                         case AtDirectorySync => RaisedAfter
                         case _ => RaisedBefore
      ensures outcome.Completed? ==> Settled(disk)
      ensures disk.dir == if !outcome.RaisedBefore? then old(disk.dir)[Target := file]
                          else if fault.AtCreate? || cleanup then old(disk.dir)
                          else old(disk.dir)[Temp(file) := file]
    {
      ghost var start := disk;
      ghost var new' := Concat(chunks);
      var ready := WriteTemp(file, chunks, fault, cleanup, |points|);
      if !ready {
        outcome := RaisedBefore;
        Record(Some(new'), outcome);
        return;
      }
      RenamedState(disk, start, file, new');
      Call(Rename(disk, file));
      if fault.AtDirectorySync? {
        outcome := RaisedAfter;
        Record(Some(new'), outcome);
        return;
      }
      SyncedState(disk);
      Call(SyncDirectory(disk));
      outcome := Completed;
      Record(Some(new'), outcome);
    }

    /** Creates, writes and syncs the temporary file; false if that or the rename raises, after the cleanup. */
    method WriteTemp(file: nat, chunks: seq<Bytes>, fault: Fault, cleanup: bool, ghost n: nat) returns (ready: bool)
      requires Sound(disk) && IsNew(file, disk) && n == |points|
      modifies `disk, `points
      ensures ready <==> fault.NoFault? || fault.AtDirectorySync? || (fault.AtWrite? && fault.done > |chunks|)
      ensures Before(disk, old(disk)) && IntactSince(n, old(disk), Some(Concat(chunks)))
      ensures Sound(disk) && Read(disk) == Read(old(disk))
      ensures forall c :: MayRecover(disk, c) <==> MayRecover(old(disk), c)
      ensures ready ==> Synced(disk, file) && disk.stable[file] == Concat(chunks)
      ensures disk.dir == if !ready && (fault.AtCreate? || cleanup) then old(disk.dir)
                          else old(disk.dir)[Temp(file) := file]
    {
      ghost var start := disk;
      BeforeIsOld(disk, start);
      if fault.AtCreate? {
        return false;
      }
      CreateStaysBefore(disk, start, file);
      CallBefore(CreateTemp(disk, file), start, n, Some(Concat(chunks)));
      WriteChunks(file, chunks, fault, start, n);
      if fault.AtSync? || (fault.AtWrite? && fault.done <= |chunks|) {
        Abandon(file, cleanup, start, n, Some(Concat(chunks)));
        return false;
      }
      AppendStaysBefore(disk, start, file, []);
      CallBefore(SyncFile(disk, file), start, n, Some(Concat(chunks)));
      if fault.AtRename? {
        Abandon(file, cleanup, start, n, Some(Concat(chunks)));
        return false;
      }
      BeforeIsOld(disk, start);
      return true;
    }

    /** Notes a call whose effect on the disk is that of its outcome. */
    ghost method Record(content: Option<Bytes>, outcome: Outcome)
      requires Sound(disk)
      requires Read(disk) == Current(initial, attempts + [Attempt(content, outcome)])
      requires forall c :: MayRecover(disk, c) <==> c in Possible(initial, attempts + [Attempt(content, outcome)])
      modifies `attempts
      ensures Valid() && attempts == old(attempts) + [Attempt(content, outcome)]
    {
      attempts := attempts + [Attempt(content, outcome)];
    }

    /** Writes the chunks, or the first of them if a write fails. */
    method WriteChunks(file: nat, chunks: seq<Bytes>, fault: Fault, ghost start: Disk, ghost n: nat)
      requires Sound(start) && Before(disk, start) && IsNew(file, start)
      requires file in disk.data && disk.data[file] == [] && IntactSince(n, start, Some(Concat(chunks)))
      modifies `disk, `points
      ensures Before(disk, start) && IntactSince(n, start, Some(Concat(chunks)))
      ensures disk == old(disk).(data := disk.data) && file in disk.data
      ensures !(fault.AtWrite? && fault.done <= |chunks|) ==> disk.data[file] == Concat(chunks)
    {
      var i := 0;
      while i < |chunks| && !(fault.AtWrite? && fault.done == i)
        invariant 0 <= i <= |chunks|
        invariant fault.AtWrite? && fault.done <= |chunks| ==> i <= fault.done
        invariant Before(disk, start) && disk == old(disk).(data := disk.data)
        invariant file in disk.data && disk.data[file] == Concat(chunks[..i])
        invariant IntactSince(n, start, Some(Concat(chunks)))
      {
        assert chunks[..i + 1][..i] == chunks[..i];
        AppendStaysBefore(disk, start, file, chunks[i]);
        CallBefore(Append(disk, file, chunks[i]), start, n, Some(Concat(chunks)));
        i := i + 1;
      }
      assert chunks[..|chunks|] == chunks;
    }

    /** The cleanup of a call that fails before the rename; an unlink that fails is only logged. */
    method Abandon(file: nat, cleanup: bool, ghost start: Disk, ghost n: nat, ghost new': Option<Bytes>)
      requires Sound(start) && Before(disk, start) && IntactSince(n, start, new')
      modifies `disk, `points
      ensures Before(disk, start) && IntactSince(n, start, new') && Sound(disk) && Read(disk) == Read(start)
      ensures forall c :: MayRecover(disk, c) <==> MayRecover(start, c)
      ensures disk.dir == if cleanup then old(disk.dir) - {Temp(file)} else old(disk.dir)
    {
      if cleanup {
        UnlinkStaysBefore(disk, start, file);
        CallBefore(Unlink(disk, Temp(file)), start, n, new');
      }
      BeforeIsOld(disk, start);
    }

    /** Removes the target; a fault other than AtDirectorySync is the unlink that raises. */
    method RemoveTarget(fault: Fault) returns (outcome: Outcome)
      requires Valid() && Target in disk.dir
      modifies this
      ensures Valid() && initial == old(initial) && attempts == old(attempts) + [Attempt(None, outcome)]
      ensures IntactSince(|old(points)|, old(disk), None)
      ensures outcome.Completed? <==> fault.NoFault?
    {
      ghost var start := disk;
      outcome := RaisedBefore;
      if !fault.NoFault? && !fault.AtDirectorySync? {
        Record(None, outcome);
        return;
      }
      RemovedState(disk);
      Call(Unlink(disk, Target));
      if fault.AtDirectorySync? {
        outcome := RaisedAfter;
        Record(None, outcome);
        return;
      }
      SyncedState(disk);
      Call(SyncDirectory(disk));
      outcome := Completed;
      Record(None, outcome);
    }

    /**
     The rollback: nothing if the target already reads as it did before, else one more call,
     after which readers see the previous content, and nothing but it survives a crash.
     */
    method RestoreConfigFile(before: Option<Bytes>, file: nat, fault: Fault, cleanup: bool) returns (outcome: Outcome)
      requires Valid() && IsNew(file, disk)
      modifies this
      ensures Valid() && initial == old(initial)
      ensures attempts == old(attempts) + if Read(old(disk)) == before then [] else [Attempt(before, outcome)]
      ensures fault.NoFault? ==> outcome.Completed?
      ensures Read(old(disk)) == before ==> outcome.Completed? && disk == old(disk)
      ensures outcome.Completed? ==> Read(disk) == before
      ensures outcome.Completed? && Read(old(disk)) != before ==> Possible(initial, attempts) == {before}
    {
      if before.Some? {
        if Read(disk) == before {
          return Completed;
        }
        outcome := AtomicReplaceFile(file, [before.value], fault, cleanup);
        assert Concat([before.value]) == Concat([]) + before.value == before.value;
      } else if Target in disk.dir {
        outcome := RemoveTarget(fault);
      } else {
        outcome := Completed;
      }
    }
  }
}
