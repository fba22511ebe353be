/** What every step of the replay machine keeps, and what follows for whole runs. */
module CrashSafety {
  import opened Text
  import opened ReplayLog
  import opened MarkerFiles
  import opened ReplayMachine

  // ---- The invariant ----

  /** Every entry, seen or durable, points to a file; every marker entry points to a sealed one. */
  ghost predicate DiskInv(d: Disk, floor: I64) {
    && (forall n :: n in d.dir ==> d.dir[n] in d.inodes && (IsMarkerName(n) ==> Sealed(d, d.dir[n], floor)))
    && (forall n :: n in d.durable ==>
                      d.durable[n] in d.inodes && (IsMarkerName(n) ==> Sealed(d, d.durable[n], floor)))
  }

  /** The marker of an answered key is in the directory and would survive a power loss. */
  predicate Recorded(d: Disk, e: Event) {
    var n := NameFor(e.key);
    Holds(d, n) && Content(d, n) == MarkerText(e.expiry) && n in d.durable && d.durable[n] == d.dir[n]
  }

  /** Everything declared fresh and still in force is recorded. */
  ghost predicate LogInv(w: World) {
    && w.floor <= w.clock
    && AtMostOnce(w.log) && Timely(w.log)
    && forall e :: e in w.log && e.status.Fresh? && w.clock <= e.expiry ==> Recorded(w.disk, e)
  }

  /** Every handle is on the lock file of the directory, and a live process holds its lock. */
  ghost predicate LockInv(w: World, p: Pid) {
    var ph := At(w, p);
    && (!ph.Down? ==> LOCK_NAME in w.disk.dir)
    && (ph.Handle? ==> ph.ino == w.disk.dir[LOCK_NAME])
    && (ph.Live() ==> w.disk.dir[LOCK_NAME] in w.locks && w.locks[w.disk.dir[LOCK_NAME]] == p)
  }

  /** No marker entry, seen or durable, points to this file. */
  predicate Unpublished(d: Disk, ino: nat) {
    && (forall n :: n in d.dir && IsMarkerName(n) ==> d.dir[n] != ino)
    && (forall n :: n in d.durable && IsMarkerName(n) ==> d.durable[n] != ino)
  }

  /** Earlier records of this key are no longer in force. */
  predicate Lapsed(w: World, op: Op) {
    forall e :: e in w.log && e.status.Fresh? && e.key == op.key ==> e.expiry < op.now
  }

  predicate Staged(w: World, op: Op, pending: string, ino: nat, data: string) {
    && Holds(w.disk, pending) && w.disk.dir[pending] == ino
    && Unpublished(w.disk, ino) && w.disk.inodes[ino].data == data
  }

  predicate Published(w: World, op: Op) {
    var n := NameFor(op.key);
    Holds(w.disk, n) && Content(w.disk, n) == MarkerText(op.expiry) && Lapsed(w, op)
  }

  predicate Persisted(w: World, op: Op) {
    var n := NameFor(op.key);
    Published(w, op) && n in w.disk.durable && w.disk.durable[n] == w.disk.dir[n]
  }

  predicate PendingPhase(ph: Phase) {
    ph.Write? || ph.SyncFile? || ph.Link? || ph.SyncLink? || ph.Unlink? || ph.SyncUnlink?
    || ph.ProbeFinal? || ph.DropPending? || ph.DropSync?
  }

  ghost predicate OpInv(w: World, p: Pid) {
    var ph := At(w, p);
    && (ph.Busy() ==> ph.op.now == w.clock && ph.op.now <= ph.op.expiry && ph.op.attempt <= 1)
    && (PendingPhase(ph) ==> IsPendingName(ph.pending))
    && match ph
       case Write(op, pending, ino, written) =>
         written <= |MarkerText(op.expiry)| && Staged(w, op, pending, ino, MarkerText(op.expiry)[..written])
       case SyncFile(op, pending, ino) => Staged(w, op, pending, ino, MarkerText(op.expiry))
       case Link(op, pending, ino) =>
         Staged(w, op, pending, ino, MarkerText(op.expiry)) && w.disk.inodes[ino].stable == MarkerText(op.expiry)
       case Evict(op, _) =>
         var e := ExpiryOf(w.disk, NameFor(op.key)); e.Some? && e.value < op.now
       case SyncLink(op, _) => Published(w, op)
       case Unlink(op, _) => Persisted(w, op)
       case SyncUnlink(op, _) => Persisted(w, op)
       case _ => true
  }

  ghost predicate Inv(w: World) {
    DiskInv(w.disk, w.floor) && LogInv(w) && forall p: Pid :: LockInv(w, p) && OpInv(w, p)
  }

  // ---- Single writer ----

  /** At most one process is live. */
  lemma OneWriter(w: World, p: Pid, q: Pid)
    requires Inv(w) && At(w, p).Live() && At(w, q).Live()
    ensures p == q
  {
    assert LockInv(w, p) && LockInv(w, q);
  }

  predicate SameLockFile(d: Disk, d': Disk) {
    LOCK_NAME in d.dir && LOCK_NAME in d'.dir && d'.dir[LOCK_NAME] == d.dir[LOCK_NAME]
  }

  /** A step of a live process that keeps the lock file and the lock table leaves every other
      process as it was. */
  lemma OthersKept(w: World, p: Pid, w': World)
    requires Inv(w) && At(w, p).Live()
    requires w'.locks == w.locks && p in w'.procs && w'.procs == w.procs[p := w'.procs[p]]
    requires w'.procs[p].Live() && SameLockFile(w.disk, w'.disk)
    ensures LockInv(w', p)
    ensures forall q: Pid :: q != p ==> LockInv(w', q) && OpInv(w', q)
  {
    assert LockInv(w, p);
    forall q: Pid | q != p
      ensures LockInv(w', q) && OpInv(w', q)
    {
      assert LockInv(w, q) && OpInv(w, q);
      assert At(w', q) == At(w, q);
      if At(w, q).Live() {
        OneWriter(w, p, q);
      }
    }
  }

  lemma LockNameApart(name: string)
    requires IsMarkerName(name) || IsPendingName(name)
    ensures name != LOCK_NAME
  {
  }

  // ---- How each change of the directory keeps the disk and the log ----

  /** The log survives any change that keeps the files and the entries of recorded markers. */
  lemma LogKept(w: World, w': World)
    requires LogInv(w) && w'.log == w.log && w'.clock == w.clock && w'.floor == w.floor
    requires forall e :: e in w.log && e.status.Fresh? && w.clock <= e.expiry && Recorded(w.disk, e) ==>
             Recorded(w'.disk, e)
    ensures LogInv(w')
  {
  }

  lemma RemoveKeeps(d: Disk, name: string, floor: I64)
    requires DiskInv(d, floor)
    ensures DiskInv(Removed(d, name), floor)
    ensures forall e :: Recorded(d, e) && NameFor(e.key) != name ==> Recorded(Removed(d, name), e)
  {
  }

  lemma SyncKeeps(d: Disk, d': Disk, ok: bool, floor: I64)
    requires DiskInv(d, floor) && SyncIo(d, d', ok)
    ensures DiskInv(d', floor) && d'.dir == d.dir && d'.inodes == d.inodes
    ensures forall e :: Recorded(d, e) ==> Recorded(d', e)
  {
  }

  lemma FlushKeeps(d: Disk, name: string, floor: I64)
    requires DiskInv(d, floor)
    ensures DiskInv(Flushed(d, name), floor)
    ensures forall e :: Recorded(d, e) ==> Recorded(Flushed(d, name), e)
  {
  }

  /** A pending file that carries its own name is not a recorded marker. */
  lemma PendingNotRecorded(name: string, key: ReplayKey)
    requires IsPendingName(name) || name == LOCK_NAME
    ensures name != NameFor(key)
  {
  }

  /** An expired marker is the record of nothing that is still in force. */
  lemma ExpiredNotRecorded(w: World, name: string)
    requires LogInv(w) && IsMarkerName(name) && ExpiryOf(w.disk, name).Some?
    requires ExpiryOf(w.disk, name).value < w.clock
    ensures forall e :: e in w.log && e.status.Fresh? && w.clock <= e.expiry ==> NameFor(e.key) != name
  {
    forall e | e in w.log && e.status.Fresh? && w.clock <= e.expiry
      ensures NameFor(e.key) != name
    {
      MarkerReads(e.expiry);
    }
  }

  /** Changing a file that no marker entry points to. */
  lemma FileKeeps(d: Disk, ino: nat, file: Inode, floor: I64)
    requires DiskInv(d, floor) && Unpublished(d, ino)
    ensures var d' := d.(inodes := d.inodes[ino := file]);
            && DiskInv(d', floor) && Unpublished(d', ino)
            && forall e :: Recorded(d, e) ==> Recorded(d', e)
  {
  }

  lemma CreateKeeps(d: Disk, name: string, ino: nat, floor: I64)
    requires DiskInv(d, floor) && name !in d.dir && ino !in d.inodes && !IsMarkerName(name)
    ensures var d' := Created(d, name, ino);
            && DiskInv(d', floor) && Unpublished(d', ino) && Holds(d', name)
            && forall e :: Recorded(d, e) ==> Recorded(d', e)
  {
  }

  lemma LinkKeeps(d: Disk, pending: string, name: string, floor: I64)
    requires DiskInv(d, floor) && pending in d.dir && name !in d.dir
    requires Sealed(d, d.dir[pending], floor)
    ensures DiskInv(Linked(d, pending, name), floor)
    ensures forall e :: Recorded(d, e) ==> Recorded(Linked(d, pending, name), e)
  {
  }

  // ---- Steps of the environment ----

  /** Other processes' private files are untouched by write-back of directory entries. */
  lemma FlushInv(w: World, name: string)
    requires Inv(w)
    ensures Inv(w.(disk := Flushed(w.disk, name)))
  {
    hide DiskInv, LogInv, Recorded, MarkerText;
    var w' := w.(disk := Flushed(w.disk, name));
    FlushKeeps(w.disk, name, w.floor);
    LogKept(w, w');
    forall p: Pid
      ensures LockInv(w', p) && OpInv(w', p)
    {
      assert LockInv(w, p) && OpInv(w, p);
    }
  }

  lemma WriteBackInv(w: World, ino: nat, bytes: string)
    requires Inv(w)
    ensures Inv(w.(disk := WrittenBack(w.disk, ino, bytes)))
  {
    var d := w.disk;
    if ino in d.inodes && d.inodes[ino].data != d.inodes[ino].stable {
      var w' := w.(disk := WrittenBack(d, ino, bytes));
      assert Unpublished(d, ino) by {
        forall n | n in d.dir && IsMarkerName(n) ensures d.dir[n] != ino {
          assert Sealed(d, d.dir[n], w.floor);
        }
        forall n | n in d.durable && IsMarkerName(n) ensures d.durable[n] != ino {
          assert Sealed(d, d.durable[n], w.floor);
        }
      }
      FileKeeps(d, ino, d.inodes[ino].(stable := bytes), w.floor);
      LogKept(w, w');
      forall p: Pid
        ensures LockInv(w', p) && OpInv(w', p)
      {
        assert LockInv(w, p) && OpInv(w, p);
      }
    }
  }

  lemma PowerLossInv(w: World)
    requires Inv(w)
    ensures Inv(PowerLost(w))
  {
  }

  lemma GoneInv(w: World, p: Pid)
    requires Inv(w)
    ensures Inv(Gone(w, p, w.disk))
  {
    var w' := Gone(w, p, w.disk);
    LogKept(w, w');
    forall q: Pid
      ensures LockInv(w', q) && OpInv(w', q)
    {
      assert LockInv(w, q) && OpInv(w, q);
    }
  }

  // ---- Steps of a process ----

  lemma OpenInv(w: World, p: Pid, ino: nat, w': World)
    requires Inv(w) && At(w, p).Down? && OpenStep(w, p, ino, w')
    ensures Inv(w')
  {
    if w'.disk == w.disk {
      HandleInv(w, p, At(w', p));
    } else {
      NamesDisjoint(LOCK_NAME);
      CreateKeeps(w.disk, LOCK_NAME, ino, w.floor);
      var v := w.(disk := w'.disk);
      LogKept(w, v);
      forall q: Pid
        ensures LockInv(v, q) && OpInv(v, q)
      {
        assert LockInv(w, q) && OpInv(w, q);
      }
      HandleInv(v, p, At(w', p));
    }
  }

  lemma HandleInv(w: World, p: Pid, phase: Phase)
    requires Inv(w) && At(w, p).Down?
    requires phase.Down? || (phase.Handle? && LOCK_NAME in w.disk.dir && phase.ino == w.disk.dir[LOCK_NAME])
    ensures Inv(Goto(w, p, w.disk, phase))
  {
    var w' := Goto(w, p, w.disk, phase);
    LogKept(w, w');
    forall q: Pid
      ensures LockInv(w', q) && OpInv(w', q)
    {
      assert LockInv(w, q) && OpInv(w, q);
    }
  }

  lemma LockStepInv(w: World, p: Pid, w': World)
    requires Inv(w) && At(w, p).Handle? && LockStep(w, p, w')
    ensures Inv(w')
  {
    LogKept(w, w');
    assert LockInv(w, p);
    forall q: Pid
      ensures LockInv(w', q) && OpInv(w', q)
    {
      assert LockInv(w, q) && OpInv(w, q);
    }
  }

  /** Putting the parts together after a step of a live process. */
  lemma Assemble(w: World, p: Pid, w': World)
    requires Inv(w) && At(w, p).Live()
    requires w'.locks == w.locks && p in w'.procs && w'.procs == w.procs[p := w'.procs[p]]
    requires w'.procs[p].Live() && SameLockFile(w.disk, w'.disk)
    requires w'.floor == w.floor && DiskInv(w'.disk, w'.floor) && LogInv(w') && OpInv(w', p)
    ensures Inv(w')
  {
    OthersKept(w, p, w');
  }

  /** A live process moves on without touching the directory. */
  lemma MoveInv(w: World, p: Pid, phase: Phase)
    requires Inv(w) && At(w, p).Live() && phase.Live()
    requires OpInv(Goto(w, p, w.disk, phase), p)
    ensures Inv(Goto(w, p, w.disk, phase))
  {
    var w' := Goto(w, p, w.disk, phase);
    assert LockInv(w, p);
    LogKept(w, w');
    Assemble(w, p, w');
  }

  /** A live process removes an entry that records nothing in force. */
  lemma RemoveInv(w: World, p: Pid, name: string, phase: Phase)
    requires Inv(w) && At(w, p).Live() && phase.Live() && name != LOCK_NAME
    requires forall e :: e in w.log && e.status.Fresh? && w.clock <= e.expiry ==> NameFor(e.key) != name
    requires OpInv(Goto(w, p, Removed(w.disk, name), phase), p)
    ensures Inv(Goto(w, p, Removed(w.disk, name), phase))
  {
    var w' := Goto(w, p, Removed(w.disk, name), phase);
    assert LockInv(w, p);
    RemoveKeeps(w.disk, name, w.floor);
    LogKept(w, w');
    Assemble(w, p, w');
  }

  /** A live process syncs the directory. */
  lemma SyncInv(w: World, p: Pid, phase: Phase)
    requires Inv(w) && At(w, p).Live() && phase.Live()
    requires OpInv(Goto(w, p, DirSynced(w.disk), phase), p)
    ensures Inv(Goto(w, p, DirSynced(w.disk), phase))
  {
    var w' := Goto(w, p, DirSynced(w.disk), phase);
    assert LockInv(w, p);
    SyncKeeps(w.disk, w'.disk, true, w.floor);
    LogKept(w, w');
    Assemble(w, p, w');
  }

  /** A refusal or a `Replay` answer adds nothing to what must be recorded. */
  lemma AnswerInv(w: World, p: Pid, op: Op, status: Status)
    requires Inv(w) && At(w, p).Live() && !status.Fresh?
    ensures Inv(Answer(w, p, w.disk, op, status))
  {
    var w' := Answer(w, p, w.disk, op, status);
    assert LockInv(w, p);
    AppendEvent(w.log, Event(op.key, op.expiry, op.now, status));
    Assemble(w, p, w');
  }

  lemma PendingFree(w: World, name: string)
    requires IsPendingName(name)
    ensures name != LOCK_NAME
    ensures forall e :: e in w.log ==> NameFor(e.key) != name
  {
    NamesDisjoint(name);
    forall e | e in w.log ensures NameFor(e.key) != name {
      PendingNotRecorded(name, e.key);
    }
  }

  lemma StartupInv(w: World, p: Pid, name: string, w': World)
    requires Inv(w) && At(w, p).Live() && StartupStep(w, p, name, w')
    ensures Inv(w')
  {
    hide DiskInv, LogInv, LockInv;
    assert LockInv(w, p) && OpInv(w, p);
    if w'.disk == w.disk {
      if w' == Gone(w, p, w.disk) {
        GoneInv(w, p);
      } else {
        MoveInv(w, p, At(w', p));
      }
    } else if At(w, p).ScavengeSync? {
      SyncInv(w, p, Idle);
    } else {
      ScavengedInv(w, p, name, At(w, p).todo - {name});
    }
  }

  /** Removing a pending file at startup, and going on or giving up. */
  lemma ScavengedInv(w: World, p: Pid, name: string, todo: set<string>)
    requires Inv(w) && At(w, p).Live() && IsPendingName(name)
    ensures Inv(Goto(w, p, Removed(w.disk, name), Scavenge(todo, true)))
    ensures Inv(Gone(w, p, Removed(w.disk, name)))
  {
    hide DiskInv, LogInv, LockInv;
    PendingFree(w, name);
    RemoveInv(w, p, name, Scavenge(todo, true));
    var v := Goto(w, p, Removed(w.disk, name), Scavenge(todo, true));
    GoneInv(v, p);
    assert Gone(v, p, v.disk) == Gone(w, p, v.disk);
  }

  /** Removing an entry and then refusing the call. */
  lemma RemoveAnswerInv(w: World, p: Pid, name: string, op: Op)
    requires Inv(w) && At(w, p).Live() && name != LOCK_NAME
    requires forall e :: e in w.log && e.status.Fresh? && w.clock <= e.expiry ==> NameFor(e.key) != name
    ensures Inv(Answer(w, p, Removed(w.disk, name), op, Failed))
  {
    var v := Goto(w, p, Removed(w.disk, name), Idle);
    RemoveInv(w, p, name, Idle);
    AnswerInv(v, p, op, Failed);
    assert Answer(v, p, v.disk, op, Failed) == Answer(w, p, Removed(w.disk, name), op, Failed);
  }

  lemma ExpiredInv(w: World, p: Pid, name: string, phase: Phase, op: Op)
    requires Inv(w) && At(w, p).Live() && phase.Live()
    requires IsMarkerName(name) && ExpiryOf(w.disk, name).Some? && ExpiryOf(w.disk, name).value < w.clock
    requires OpInv(Goto(w, p, Removed(w.disk, name), phase), p)
    ensures Inv(Goto(w, p, Removed(w.disk, name), phase))
    ensures Inv(Answer(w, p, Removed(w.disk, name), op, Failed))
  {
    LockNameApart(name);
    ExpiredNotRecorded(w, name);
    RemoveInv(w, p, name, phase);
    RemoveAnswerInv(w, p, name, op);
  }

  lemma CleanInv(w: World, p: Pid, name: string, w': World)
    requires Inv(w) && At(w, p).Live() && CleanStep(w, p, name, w')
    ensures Inv(w')
  {
    hide DiskInv, LogInv, LockInv;
    assert OpInv(w, p);
    var op := At(w, p).op;
    AnswerInv(w, p, op, Failed);
    if w' != Answer(w, p, w.disk, op, Failed) {
      if w'.disk == w.disk && w' == Goto(w, p, w.disk, At(w', p)) {
        MoveInv(w, p, At(w', p));
      } else {
        ExpiredInv(w, p, name, Clean(op, At(w, p).todo - {name}, At(w, p).active), op);
      }
    }
  }

  lemma ProbeInv(w: World, p: Pid, w': World)
    requires Inv(w) && At(w, p).Probe? && ProbeStep(w, p, w')
    ensures Inv(w')
  {
    hide DiskInv, LogInv, LockInv;
    assert OpInv(w, p);
    var op := At(w, p).op;
    AnswerInv(w, p, op, Failed);
    AnswerInv(w, p, op, Replay);
    if w' != Answer(w, p, w.disk, op, Failed) && w' != Answer(w, p, w.disk, op, Replay) {
      MoveInv(w, p, At(w', p));
    }
  }

  lemma EvictInv(w: World, p: Pid, w': World)
    requires Inv(w) && At(w, p).Evict? && EvictStep(w, p, w')
    ensures Inv(w')
  {
    hide DiskInv, LogInv, LockInv;
    assert OpInv(w, p);
    var Evict(op, active) := At(w, p);
    ExpiredInv(w, p, NameFor(op.key), Create(op, active), op);
    AnswerInv(w, p, op, Failed);
  }

  lemma CreateStepInv(w: World, p: Pid, name: string, ino: nat, w': World)
    requires Inv(w) && At(w, p).Create? && CreateStep(w, p, name, ino, w')
    ensures Inv(w')
  {
    assert OpInv(w, p);
    var op := At(w, p).op;
    if w' == Answer(w, p, w.disk, op, Failed) {
      AnswerInv(w, p, op, Failed);
    } else if w'.disk == w.disk {
      MoveInv(w, p, List(op.(attempt := 1)));
    } else {
      CreateInv(w, p, op, name, ino);
    }
  }

  lemma CreateInv(w: World, p: Pid, op: Op, name: string, ino: nat)
    requires Inv(w) && At(w, p).Live() && op.now == w.clock && op.now <= op.expiry && op.attempt <= 1
    requires IsPendingName(name) && name !in w.disk.dir && ino !in w.disk.inodes
    ensures Inv(Goto(w, p, Created(w.disk, name, ino), Write(op, name, ino, 0)))
    ensures Inv(Answer(w, p, Created(w.disk, name, ino), op, Failed))
  {
    var d' := Created(w.disk, name, ino);
    var v := Goto(w, p, d', Write(op, name, ino, 0));
    assert LockInv(w, p);
    NamesDisjoint(name);
    CreateKeeps(w.disk, name, ino, w.floor);
    LogKept(w, v);
    Assemble(w, p, v);
    AnswerInv(v, p, op, Failed);
    assert Answer(v, p, d', op, Failed) == Answer(w, p, d', op, Failed);
  }

  /** A live process changes a file that no marker entry points to. */
  lemma FileInv(w: World, p: Pid, ino: nat, file: Inode, phase: Phase)
    requires Inv(w) && At(w, p).Live() && phase.Live() && Unpublished(w.disk, ino)
    requires OpInv(Goto(w, p, w.disk.(inodes := w.disk.inodes[ino := file]), phase), p)
    ensures Inv(Goto(w, p, w.disk.(inodes := w.disk.inodes[ino := file]), phase))
  {
    var w' := Goto(w, p, w.disk.(inodes := w.disk.inodes[ino := file]), phase);
    assert LockInv(w, p);
    FileKeeps(w.disk, ino, file, w.floor);
    LogKept(w, w');
    Assemble(w, p, w');
  }

  lemma WriteInv(w: World, p: Pid, count: nat, w': World)
    requires Inv(w) && At(w, p).Write? && WriteStep(w, p, count, w')
    ensures Inv(w')
  {
    assert OpInv(w, p);
    var Write(op, pending, ino, written) := At(w, p);
    var text := MarkerText(op.expiry);
    if w' == Goto(w, p, w.disk, ProbeFinal(op, pending)) {
      MoveInv(w, p, ProbeFinal(op, pending));
    } else {
      var file := w.disk.inodes[ino].(data := text[..written] + text[written..written + count]);
      assert file.data == text[..written + count];
      assert text[..|text|] == text;
      FileInv(w, p, ino, file, At(w', p));
    }
  }

  lemma SyncFileInv(w: World, p: Pid, w': World)
    requires Inv(w) && At(w, p).SyncFile? && SyncFileStep(w, p, w')
    ensures Inv(w')
  {
    assert OpInv(w, p);
    var SyncFile(op, pending, ino) := At(w, p);
    if w' == Goto(w, p, w.disk, ProbeFinal(op, pending)) {
      MoveInv(w, p, ProbeFinal(op, pending));
    } else {
      var text := MarkerText(op.expiry);
      FileInv(w, p, ino, Inode(text, text), Link(op, pending, ino));
    }
  }

  /** The link appears only where no marker stood, so nothing recorded for the key is in force. */
  lemma LinkInv(w: World, p: Pid, w': World)
    requires Inv(w) && At(w, p).Link? && LinkStep(w, p, w')
    ensures Inv(w')
  {
    assert OpInv(w, p);
    assert LockInv(w, p);
    var Link(op, pending, ino) := At(w, p);
    var name := NameFor(op.key);
    if w'.disk == w.disk {
      MoveInv(w, p, ProbeFinal(op, pending));
    } else {
      assert Sealed(w.disk, ino, w.floor);
      LinkKeeps(w.disk, pending, name, w.floor);
      LockNameApart(name);
      LogKept(w, w');
      assert Lapsed(w', op);
      Assemble(w, p, w');
    }
  }

  lemma PublishInv(w: World, p: Pid, w': World)
    requires Inv(w) && At(w, p).Live() && PublishStep(w, p, w')
    ensures Inv(w')
  {
    hide DiskInv, LogInv, LockInv;
    assert OpInv(w, p) && LockInv(w, p);
    var op, pending := At(w, p).op, At(w, p).pending;
    PendingFree(w, pending);
    PendingNotRecorded(pending, op.key);
    if w' == Goto(w, p, w.disk, ProbeFinal(op, pending)) {
      MoveInv(w, p, ProbeFinal(op, pending));
    } else if At(w, p).SyncLink? {
      SyncInv(w, p, Unlink(op, pending));
    } else if At(w, p).Unlink? {
      RemoveInv(w, p, pending, At(w', p));
    } else {
      FreshInv(w, p, w');
    }
  }

  /** The moment of the `Fresh` answer. */
  lemma FreshInv(w: World, p: Pid, w': World)
    requires Inv(w) && At(w, p).SyncUnlink?
    requires w' == Answer(w, p, DirSynced(w.disk), At(w, p).op, Fresh)
    ensures Inv(w')
  {
    assert OpInv(w, p) && LockInv(w, p);
    var op := At(w, p).op;
    SyncKeeps(w.disk, w'.disk, true, w.floor);
    AppendEvent(w.log, Event(op.key, op.expiry, op.now, Fresh));
    Assemble(w, p, w');
  }

  lemma AbandonInv(w: World, p: Pid, w': World)
    requires Inv(w) && At(w, p).Live() && AbandonStep(w, p, w')
    ensures Inv(w')
  {
    hide DiskInv, LogInv, LockInv;
    assert OpInv(w, p) && LockInv(w, p);
    var ph := At(w, p);
    PendingFree(w, ph.pending);
    match ph
    case ProbeFinal(op, pending) =>
      MoveInv(w, p, At(w', p));
    case DropPending(op, pending, found) =>
      if w'.disk == w.disk {
        MoveInv(w, p, At(w', p));
      } else {
        RemoveInv(w, p, pending, At(w', p));
      }
    case DropSync(op, pending, found) =>
      DropSyncInv(w, p, w');
  }

  lemma DropSyncInv(w: World, p: Pid, w': World)
    requires Inv(w) && At(w, p).DropSync? && AbandonStep(w, p, w')
    ensures Inv(w')
  {
    assert OpInv(w, p) && LockInv(w, p);
    var op := At(w, p).op;
    var ok :| SyncIo(w.disk, w'.disk, ok);
    SyncKeeps(w.disk, w'.disk, ok, w.floor);
    var v := Goto(w, p, w'.disk, List(op));
    LogKept(w, v);
    Assemble(w, p, v);
    if At(w, p).found && op.attempt == 0 {
      MoveInv(v, p, List(op.(attempt := 1)));
      assert Goto(v, p, w'.disk, List(op.(attempt := 1))) == w';
    } else {
      AnswerInv(v, p, op, Failed);
      assert Answer(v, p, w'.disk, op, Failed) == w';
    }
  }

  lemma CallInv(w: World, p: Pid, op: Op, w': World)
    requires Inv(w) && CallStep(w, p, op, w') && op.attempt == 0
    ensures Inv(w')
  {
    var v := w.(clock := op.now);
    forall q: Pid
      ensures LockInv(v, q) && OpInv(v, q)
    {
      assert LockInv(w, q) && OpInv(w, q);
      if At(w, q).Live() {
        OneWriter(w, p, q);
      }
    }
    if op.expiry < op.now {
      AnswerInv(v, p, op, Failed);
    } else {
      MoveInv(v, p, List(op));
    }
  }

  /** Every step keeps the invariant. */
  lemma StepInv(w: World, l: Label, w': World)
    requires Inv(w) && Step(w, l, w')
    ensures Inv(w')
  {
    match l
    case Flush(name) => FlushInv(w, name);
    case WriteBack(ino, bytes) => WriteBackInv(w, ino, bytes);
    case PowerLoss => PowerLossInv(w);
    case Kill(p) => GoneInv(w, p);
    case Call(p, key, expiry, now) => CallInv(w, p, Op(key, expiry, now, 0), w');
    case Go(p, name, ino) =>
      match At(w, p)
      case Down => OpenInv(w, p, ino, w');
      case Handle(_) => LockStepInv(w, p, w');
      case Locked => StartupInv(w, p, name, w');
      case Scavenge(_, _) => StartupInv(w, p, name, w');
      case ScavengeSync => StartupInv(w, p, name, w');
      case Idle =>
      case List(_) => CleanInv(w, p, name, w');
      case Clean(_, _, _) => CleanInv(w, p, name, w');
      case Probe(_, _) => ProbeInv(w, p, w');
      case Evict(_, _) => EvictInv(w, p, w');
      case Create(_, _) => CreateStepInv(w, p, name, ino, w');
      case Write(_, _, _, _) => WriteInv(w, p, ino, w');
      case SyncFile(_, _, _) => SyncFileInv(w, p, w');
      case Link(_, _, _) => LinkInv(w, p, w');
      case SyncLink(_, _) => PublishInv(w, p, w');
      case Unlink(_, _) => PublishInv(w, p, w');
      case SyncUnlink(_, _) => PublishInv(w, p, w');
      case ProbeFinal(_, _) => AbandonInv(w, p, w');
      case DropPending(_, _, _) => AbandonInv(w, p, w');
      case DropSync(_, _, _) => AbandonInv(w, p, w');
  }

  // ---- Whole runs ----

  lemma InitInv(w: World)
    requires Init(w)
    ensures Inv(w)
  {
  }

  lemma {:induction false} RunInv(ws: seq<World>, ls: seq<Label>, i: nat)
    requires Run(ws, ls) && Init(ws[0]) && i < |ws|
    ensures Inv(ws[i])
  {
    if i == 0 {
      InitInv(ws[0]);
    } else {
      RunInv(ws, ls, i - 1);
      assert StepAt(ws, ls, i - 1);
      StepInv(ws[i - 1], ls[i - 1], ws[i]);
    }
  }

  /** Safety over every run of every number of processes with any failures, kills and power losses:
      no key is declared fresh twice within its first expiry, and no call retries more than once. */
  lemma CrashSafe(ws: seq<World>, ls: seq<Label>, i: nat)
    requires Run(ws, ls) && Init(ws[0]) && i < |ws|
    ensures AtMostOnce(ws[i].log) && Timely(ws[i].log)
    ensures forall p: Pid :: At(ws[i], p).Busy() ==> At(ws[i], p).op.attempt <= 1
  {
    RunInv(ws, ls, i);
    forall p: Pid | At(ws[i], p).Busy()
      ensures At(ws[i], p).op.attempt <= 1
    {
      assert OpInv(ws[i], p);
    }
  }

  /** Whatever was declared fresh and is in force survives a power loss at any moment: the marker
      is there with its whole text. */
  lemma FreshIsDurable(ws: seq<World>, ls: seq<Label>, i: nat, e: Event)
    requires Run(ws, ls) && Init(ws[0]) && i < |ws|
    requires e in ws[i].log && e.status.Fresh? && ws[i].clock <= e.expiry
    ensures var d := PowerLost(ws[i]).disk;
            Holds(d, NameFor(e.key)) && Content(d, NameFor(e.key)) == MarkerText(e.expiry)
  {
    RunInv(ws, ls, i);
    PowerLossInv(ws[i]);
    assert Recorded(PowerLost(ws[i]).disk, e);
  }

  /** `Fresh` comes after durability: the step that answers it starts with the marker already in the
      durable directory over a fully written-back file. */
  lemma DurableBeforeFresh(ws: seq<World>, ls: seq<Label>, i: nat, e: Event)
    requires Run(ws, ls) && Init(ws[0]) && i < |ls|
    requires ws[i + 1].log == ws[i].log + [e] && e.status.Fresh?
    ensures var d, n := ws[i].disk, NameFor(e.key);
            n in d.durable && d.durable[n] in d.inodes && d.inodes[d.durable[n]].stable == MarkerText(e.expiry)
  {
    RunInv(ws, ls, i);
    var w, w' := ws[i], ws[i + 1];
    assert StepAt(ws, ls, i);
    StepFrame(w, ls[i], w');
    assert w'.log[|w.log|] == e;
    FreshFrom(w, ls[i].pid, w');
    assert Sealed(w.disk, w.disk.durable[NameFor(e.key)], w.floor);
  }

  /** Every marker visible after a power loss holds one complete expiry, which reads back whenever
      the clock never was negative. */
  lemma MarkersComplete(ws: seq<World>, ls: seq<Label>, i: nat, n: string)
    requires Run(ws, ls) && Init(ws[0]) && i < |ws|
    requires n in PowerLost(ws[i]).disk.dir && IsMarkerName(n)
    ensures var d := PowerLost(ws[i]).disk;
            && Holds(d, n)
            && (exists e: I64 :: ws[0].floor <= e && Content(d, n) == MarkerText(e))
            && (0 <= ws[0].floor ==> ParseExpiry(Content(d, n)).Some?)
  {
    RunInv(ws, ls, i);
    PowerLossInv(ws[i]);
    FloorKept(ws, ls, i);
    var d := PowerLost(ws[i]).disk;
    assert Sealed(d, d.dir[n], ws[i].floor);
    var e: I64 :| ws[i].floor <= e && d.inodes[d.dir[n]].data == MarkerText(e);
    MarkerReads(e);
  }

  lemma {:induction false} FloorKept(ws: seq<World>, ls: seq<Label>, i: nat)
    requires Run(ws, ls) && i < |ws|
    ensures ws[i].floor == ws[0].floor
  {
    if i > 0 {
      FloorKept(ws, ls, i - 1);
      assert StepAt(ws, ls, i - 1);
      StepFrame(ws[i - 1], ls[i - 1], ws[i]);
    }
  }

  /** In every interleaving at most one store is live. */
  lemma SingleWriter(ws: seq<World>, ls: seq<Label>, i: nat, p: Pid, q: Pid)
    requires Run(ws, ls) && Init(ws[0]) && i < |ws|
    requires At(ws[i], p).Live() && At(ws[i], q).Live()
    ensures p == q
  {
    RunInv(ws, ls, i);
    OneWriter(ws[i], p, q);
  }

  /** The pending file of a publication in progress. */
  predicate InFlight(w: World, q: Pid, name: string) {
    PendingPhase(At(w, q)) && At(w, q).pending == name
  }

  /** Short of a power loss, the entry of a publication in progress is removed by nobody but the
      publishing process. */
  lemma PendingIsPrivate(ws: seq<World>, ls: seq<Label>, i: nat, q: Pid, name: string)
    requires Run(ws, ls) && Init(ws[0]) && i < |ls|
    requires InFlight(ws[i], q, name) && name in ws[i].disk.dir && name !in ws[i + 1].disk.dir
    ensures ls[i].PowerLoss? || (ls[i].Go? && ls[i].pid == q)
  {
    RunInv(ws, ls, i);
    var w, w' := ws[i], ws[i + 1];
    assert StepAt(ws, ls, i);
    if ls[i].Go? {
      var p := ls[i].pid;
      assert At(w, p).Live();
      OneWriter(w, p, q);
    }
  }

  /** Startup scavenging never removes a marker, and nothing but an expired marker is ever removed
      from the directory's markers. */
  lemma MarkersRemovedOnlyExpired(ws: seq<World>, ls: seq<Label>, i: nat, n: string)
    requires Run(ws, ls) && Init(ws[0]) && i < |ls|
    requires IsMarkerName(n) && n in ws[i].disk.dir && n !in ws[i + 1].disk.dir
    ensures ls[i].PowerLoss? ||
            (ls[i].Go? && (At(ws[i], ls[i].pid).Clean? || At(ws[i], ls[i].pid).Evict?)
             && ExpiryOf(ws[i].disk, n).Some? && ExpiryOf(ws[i].disk, n).value < ws[i].clock)
  {
    RunInv(ws, ls, i);
    var w, w' := ws[i], ws[i + 1];
    assert StepAt(ws, ls, i);
    if ls[i].Go? {
      GoLoses(w, ls[i].pid, ls[i].name, ls[i].ino, w');
      NamesDisjoint(n);
    }
  }

  // ---- What a step leaves alone ----

  /** Parameters stay, and no answer is `Fresh`. */
  predicate Framed(w: World, w': World) {
    && w'.floor == w.floor && w'.capacity == w.capacity && w.clock <= w'.clock
    && w.log <= w'.log && forall i :: |w.log| <= i < |w'.log| ==> !w'.log[i].status.Fresh?
  }

  /** Names that a process step may take out of the directory. */
  predicate Loses(w: World, p: Pid, n: string) {
    || IsPendingName(n)
    || ((At(w, p).Clean? || At(w, p).Evict?) && ExpiryOf(w.disk, n).Some? && ExpiryOf(w.disk, n).value < w.clock)
  }

  predicate LosesOnly(w: World, p: Pid, w': World) {
    forall n :: n in w.disk.dir && n !in w'.disk.dir ==> Loses(w, p, n)
  }

  lemma StartupFrame(w: World, p: Pid, name: string, w': World)
    requires StartupStep(w, p, name, w')
    ensures Framed(w, w') && LosesOnly(w, p, w')
  {
  }

  lemma CleanFrame(w: World, p: Pid, name: string, w': World)
    requires CleanStep(w, p, name, w')
    ensures Framed(w, w') && (OpInv(w, p) ==> LosesOnly(w, p, w'))
  {
  }

  lemma ProbeFrame(w: World, p: Pid, w': World)
    requires At(w, p).Probe? && ProbeStep(w, p, w')
    ensures Framed(w, w') && LosesOnly(w, p, w')
  {
  }

  lemma EvictFrame(w: World, p: Pid, w': World)
    requires At(w, p).Evict? && EvictStep(w, p, w')
    ensures Framed(w, w') && (OpInv(w, p) ==> LosesOnly(w, p, w'))
  {
  }

  lemma CreateFrame(w: World, p: Pid, name: string, ino: nat, w': World)
    requires At(w, p).Create? && CreateStep(w, p, name, ino, w')
    ensures Framed(w, w') && LosesOnly(w, p, w')
  {
  }

  lemma StageFrame(w: World, p: Pid, count: nat, w': World)
    requires || (At(w, p).Write? && WriteStep(w, p, count, w'))
             || (At(w, p).SyncFile? && SyncFileStep(w, p, w'))
             || (At(w, p).Link? && LinkStep(w, p, w'))
    ensures Framed(w, w') && LosesOnly(w, p, w')
  {
  }

  lemma PublishFrame(w: World, p: Pid, w': World)
    requires PublishStep(w, p, w')
    ensures (Framed(w, w') || At(w, p).SyncUnlink?) && w'.floor == w.floor
    ensures OpInv(w, p) ==> LosesOnly(w, p, w')
  {
  }

  lemma AbandonFrame(w: World, p: Pid, w': World)
    requires AbandonStep(w, p, w')
    ensures Framed(w, w') && (OpInv(w, p) ==> LosesOnly(w, p, w'))
  {
  }

  /** Only the step after the second directory sync answers `Fresh`. */
  lemma StepFrame(w: World, l: Label, w': World)
    requires Step(w, l, w')
    ensures w'.floor == w.floor
    ensures Framed(w, w') || (l.Go? && At(w, l.pid).SyncUnlink? && PublishStep(w, l.pid, w'))
  {
    match l
    case Flush(_) =>
    case WriteBack(_, _) =>
    case PowerLoss =>
    case Kill(_) =>
    case Call(_, _, _, _) =>
    case Go(p, name, ino) =>
      match At(w, p)
      case Down =>
      case Handle(_) =>
      case Locked => StartupFrame(w, p, name, w');
      case Scavenge(_, _) => StartupFrame(w, p, name, w');
      case ScavengeSync => StartupFrame(w, p, name, w');
      case List(_) => CleanFrame(w, p, name, w');
      case Clean(_, _, _) => CleanFrame(w, p, name, w');
      case Probe(_, _) => ProbeFrame(w, p, w');
      case Evict(_, _) => EvictFrame(w, p, w');
      case Create(_, _) => CreateFrame(w, p, name, ino, w');
      case Write(_, _, _, _) => StageFrame(w, p, ino, w');
      case SyncFile(_, _, _) => StageFrame(w, p, ino, w');
      case Link(_, _, _) => StageFrame(w, p, ino, w');
      case SyncLink(_, _) => PublishFrame(w, p, w');
      case Unlink(_, _) => PublishFrame(w, p, w');
      case SyncUnlink(_, _) => PublishFrame(w, p, w');
      case ProbeFinal(_, _) => AbandonFrame(w, p, w');
      case DropPending(_, _, _) => AbandonFrame(w, p, w');
      case DropSync(_, _, _) => AbandonFrame(w, p, w');
  }

  lemma FreshFrom(w: World, p: Pid, w': World)
    requires Inv(w) && At(w, p).SyncUnlink? && PublishStep(w, p, w') && |w'.log| == |w.log| + 1
    ensures Persisted(w, At(w, p).op)
    ensures var op := At(w, p).op; w'.log[|w.log|] == Event(op.key, op.expiry, op.now, Fresh)
  {
    assert OpInv(w, p);
  }

  lemma GoLoses(w: World, p: Pid, name: string, ino: nat, w': World)
    requires Inv(w) && Step(w, Go(p, name, ino), w')
    ensures LosesOnly(w, p, w')
  {
    assert OpInv(w, p);
    match At(w, p)
    case Down =>
    case Handle(_) =>
    case Locked => StartupFrame(w, p, name, w');
    case Scavenge(_, _) => StartupFrame(w, p, name, w');
    case ScavengeSync => StartupFrame(w, p, name, w');
    case List(_) => CleanFrame(w, p, name, w');
    case Clean(_, _, _) => CleanFrame(w, p, name, w');
    case Probe(_, _) => ProbeFrame(w, p, w');
    case Evict(_, _) => EvictFrame(w, p, w');
    case Create(_, _) => CreateFrame(w, p, name, ino, w');
    case Write(_, _, _, _) => StageFrame(w, p, ino, w');
    case SyncFile(_, _, _) => StageFrame(w, p, ino, w');
    case Link(_, _, _) => StageFrame(w, p, ino, w');
    case SyncLink(_, _) => PublishFrame(w, p, w');
    case Unlink(_, _) => PublishFrame(w, p, w');
    case SyncUnlink(_, _) => PublishFrame(w, p, w');
    case ProbeFinal(_, _) => AbandonFrame(w, p, w');
    case DropPending(_, _, _) => AbandonFrame(w, p, w');
    case DropSync(_, _, _) => AbandonFrame(w, p, w');
  }
}
