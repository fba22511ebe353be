/** Two limits of the file store, over every run of the replay machine: how many markers are in force, and what a
    negative expiry does to the calls after it (crates/keylix-verifier/src/replay.rs, lines 172 to 313). */
module StoreLimits {
  import opened Text
  import opened ReplayLog
  import opened MarkerFiles
  import opened ReplayMachine
  import opened CrashSafety
  import opened MarkerHistory

  // ---- Markers in force ----

  /** A complete marker whose expiry has not passed. */
  ghost predicate Force(text: string, now: I64) {
    exists e: I64 :: now <= e && text == MarkerText(e)
  }

  ghost predicate Forced(w: World, n: string) {
    IsMarkerName(n) && Holds(w.disk, n) && Force(Content(w.disk, n), w.clock)
  }

  ghost function InForce(w: World): set<string> {
    set n | n in w.disk.dir && Forced(w, n)
  }

  /** What would survive a power loss in force is in the directory as it is. */
  ghost predicate Backed(w: World) {
    forall n :: IsMarkerName(n) && Stored(w.disk, n) && Force(StoredText(w.disk, n), w.clock) ==>
                  Holds(w.disk, n) && Content(w.disk, n) == StoredText(w.disk, n)
  }

  /** The count of a sweep covers the markers in force that it has visited, and room was found for one more. */
  ghost predicate Counted(w: World, ph: Phase) {
    match ph
    case Clean(_, todo, active) => |InForce(w) - todo| <= active
    case Probe(_, active) => |InForce(w)| <= active
    case Evict(_, active) => |InForce(w)| <= active
    case Create(_, active) => |InForce(w)| <= active
    case Write(_, _, _, _) => |InForce(w)| < w.capacity
    case SyncFile(_, _, _) => |InForce(w)| < w.capacity
    case Link(_, _, _) => |InForce(w)| < w.capacity
    case _ => true
  }

  ghost predicate Bounded(w: World, bound: nat) {
    && w.capacity <= bound && |InForce(w)| <= bound && Backed(w)
    && forall q: Pid :: Counted(w, At(w, q))
  }

  /** How the phases of a sweep follow each other. */
  predicate NextCount(w: World, p: Pid, name: string, w': World) {
    var a := At(w, p);
    match At(w', p)
    case Clean(_, todo, active) =>
      || (a.List? && todo == w.disk.dir.Keys && active == 0)
      || (a.Clean? && todo == a.todo - {name}
          && (active == a.active + 1 || (active == a.active && (!IsMarkerName(name) || name !in w'.disk.dir))))
    case Probe(_, active) => a.Clean? && a.todo == {} && active == a.active
    case Evict(_, active) => a.Probe? && active == a.active
    case Create(_, active) => (a.Probe? || a.Evict?) && active == a.active
    case Write(_, _, _, _) => a.Write? || (a.Create? && a.active < w.capacity)
    case SyncFile(_, _, _) => a.Write?
    case Link(_, _, _) => a.SyncFile?
    case _ => true
  }

  lemma CleanCounts(w: World, p: Pid, name: string, w': World)
    requires CleanStep(w, p, name, w')
    ensures NextCount(w, p, name, w')
  {
  }

  lemma ProbeCounts(w: World, p: Pid, name: string, w': World)
    requires || (At(w, p).Probe? && ProbeStep(w, p, w'))
             || (At(w, p).Evict? && EvictStep(w, p, w'))
    ensures NextCount(w, p, name, w')
  {
  }

  lemma CreateCounts(w: World, p: Pid, name: string, ino: nat, w': World)
    requires At(w, p).Create? && CreateStep(w, p, name, ino, w')
    ensures NextCount(w, p, name, w')
  {
  }

  lemma StageCounts(w: World, p: Pid, name: string, count: nat, w': World)
    requires || (At(w, p).Write? && WriteStep(w, p, count, w'))
             || (At(w, p).SyncFile? && SyncFileStep(w, p, w'))
             || (At(w, p).Link? && LinkStep(w, p, w'))
    ensures NextCount(w, p, name, w')
  {
  }

  lemma OtherCounts(w: World, p: Pid, name: string, ino: nat, w': World)
    requires || (At(w, p).Down? && OpenStep(w, p, ino, w')) || (At(w, p).Handle? && LockStep(w, p, w'))
             || StartupStep(w, p, name, w') || PublishStep(w, p, w') || AbandonStep(w, p, w')
    ensures NextCount(w, p, name, w')
  {
  }

  lemma GoCounts(w: World, p: Pid, name: string, ino: nat, w': World)
    requires GoStep(w, p, name, ino, w')
    ensures NextCount(w, p, name, w')
  {
    hide NextCount, OpenStep, LockStep, StartupStep, CleanStep, ProbeStep, EvictStep, CreateStep,
         WriteStep, SyncFileStep, LinkStep, PublishStep, AbandonStep;
    match At(w, p)
    case Idle =>
    case List(_) => CleanCounts(w, p, name, w');
    case Clean(_, _, _) => CleanCounts(w, p, name, w');
    case Probe(_, _) => ProbeCounts(w, p, name, w');
    case Evict(_, _) => ProbeCounts(w, p, name, w');
    case Create(_, _) => CreateCounts(w, p, name, ino, w');
    case Write(_, _, _, _) => StageCounts(w, p, name, ino, w');
    case SyncFile(_, _, _) => StageCounts(w, p, name, ino, w');
    case Link(_, _, _) => StageCounts(w, p, name, ino, w');
    case _ => OtherCounts(w, p, name, ino, w');
  }

  lemma SmallerSet(a: set<string>, b: set<string>)
    requires a <= b
    ensures |a| <= |b|
  {
    assert b == a + (b - a);
  }

  /** The markers in force only shrink in a quiet step. */
  lemma QuietForce(w: World, w': World)
    requires MarkersKept(w.disk, w'.disk) && w.clock <= w'.clock
    ensures InForce(w') <= InForce(w)
  {
    forall n | n in InForce(w') ensures n in InForce(w) {
      assert Forced(w', n);
      var e: I64 :| w'.clock <= e && Content(w'.disk, n) == MarkerText(e);
      assert Force(Content(w.disk, n), w.clock);
    }
  }

  /** A marker in force is not expired, whether or not it can be read. */
  lemma ForceNotExpired(w: World, n: string)
    requires Forced(w, n)
    ensures ExpiryOf(w.disk, n).None? || w.clock <= ExpiryOf(w.disk, n).value
  {
    var e: I64 :| w.clock <= e && Content(w.disk, n) == MarkerText(e);
    MarkerReads(e);
  }

  /** No process step takes a marker in force out of the directory. */
  lemma ForceStays(w: World, p: Pid, name: string, ino: nat, w': World, n: string)
    requires Inv(w) && Inv(w') && Step(w, Go(p, name, ino), w') && Forced(w, n)
    ensures Holds(w'.disk, n)
  {
    hide GoStep, LogInv, LockInv, OpInv, Force;
    GoLoses(w, p, name, ino, w');
    ForceNotExpired(w, n);
    NamesDisjoint(n);
  }

  /** One more name is visited. */
  lemma SweepCount(f: set<string>, f': set<string>, todo: set<string>, name: string, active: nat, active': nat)
    requires f' <= f && |f - todo| <= active
    requires active' == active + 1 || (active' == active && name !in f')
    ensures |f' - (todo - {name})| <= active'
  {
    if name in f' {
      SmallerSet(f' - (todo - {name}), (f - todo) + {name});
    } else {
      SmallerSet(f' - (todo - {name}), f - todo);
    }
  }

  lemma SweepGoesOn(w: World, p: Pid, name: string, w': World)
    requires InForce(w') <= InForce(w) && Counted(w, At(w, p)) && NextCount(w, p, name, w') && At(w', p).Clean?
    ensures |InForce(w') - At(w', p).todo| <= At(w', p).active
  {
    hide InForce;
    var a, b := At(w, p), At(w', p);
    if a.List? {
      ListCovers(w, w');
    } else {
      if b.active == a.active {
        NotCounted(w', name);
      }
      SweepCount(InForce(w), InForce(w'), a.todo, name, a.active, b.active);
    }
  }

  /** Counting goes on: the sets shrink, and the phases follow each other as they should. */
  lemma CountGoesOn(w: World, p: Pid, name: string, w': World)
    requires InForce(w') <= InForce(w) && Counted(w, At(w, p)) && NextCount(w, p, name, w') && w'.capacity == w.capacity
    ensures Counted(w', At(w', p))
  {
    hide InForce;
    SmallerSet(InForce(w'), InForce(w));
    assert InForce(w) - {} == InForce(w);
    if At(w', p).Clean? {
      SweepGoesOn(w, p, name, w');
    }
  }

  lemma ListCovers(w: World, w': World)
    requires InForce(w') <= InForce(w)
    ensures InForce(w') - w.disk.dir.Keys == {}
  {
  }

  lemma NotCounted(w: World, name: string)
    requires !IsMarkerName(name) || name !in w.disk.dir
    ensures name !in InForce(w)
  {
  }

  lemma QuietBacked(w: World, w': World)
    requires Backed(w) && MarkersKept(w.disk, w'.disk) && w.clock <= w'.clock
    requires forall n :: Forced(w, n) ==> Holds(w'.disk, n)
    ensures Backed(w')
  {
    forall n | IsMarkerName(n) && Stored(w'.disk, n) && Force(StoredText(w'.disk, n), w'.clock)
      ensures Holds(w'.disk, n) && Content(w'.disk, n) == StoredText(w'.disk, n)
    {
      StillForce(StoredText(w'.disk, n), w.clock, w'.clock);
      assert Forced(w, n);
      assert Content(w'.disk, n) == Content(w.disk, n);
    }
  }

  lemma StillForce(text: string, now: I64, later: I64)
    requires Force(text, later) && now <= later
    ensures Force(text, now)
  {
  }

  lemma CountedSmaller(w: World, w': World, ph: Phase)
    requires InForce(w') <= InForce(w) && w'.capacity == w.capacity && Counted(w, ph)
    ensures Counted(w', ph)
  {
    hide InForce;
    SmallerSet(InForce(w'), InForce(w));
    if ph.Clean? {
      SmallerSet(InForce(w') - ph.todo, InForce(w) - ph.todo);
    }
  }

  /** A step of `p`, or of nobody, that links nothing. */
  lemma QuietBounded(w: World, w': World, bound: nat, p: Pid)
    requires Bounded(w, bound) && MarkersKept(w.disk, w'.disk) && w.clock <= w'.clock && w'.capacity == w.capacity
    requires forall n :: Forced(w, n) ==> Holds(w'.disk, n)
    requires InForce(w') <= InForce(w) ==> Counted(w', At(w', p))
    requires forall q: Pid :: q != p ==> At(w', q) == At(w, q)
    ensures Bounded(w', bound)
  {
    hide InForce, Counted, Backed, MarkersKept, Forced;
    QuietForce(w, w');
    QuietBacked(w, w');
    SmallerSet(InForce(w'), InForce(w));
    forall q: Pid ensures Counted(w', At(w', q)) {
      if q != p {
        CountedSmaller(w, w', At(w, q));
      }
    }
  }

  lemma GoBounded(w: World, p: Pid, name: string, ino: nat, w': World, bound: nat)
    requires Inv(w) && Inv(w') && Bounded(w, bound) && Step(w, Go(p, name, ino), w') && Quiet(w, p, w')
    ensures Bounded(w', bound)
  {
    hide InForce, Counted, Backed, MarkersKept, Forced, GoStep, Inv, NextCount;
    forall n | Forced(w, n) ensures Holds(w'.disk, n) {
      ForceStays(w, p, name, ino, w', n);
    }
    GoCounts(w, p, name, ino, w');
    if InForce(w') <= InForce(w) {
      CountGoesOn(w, p, name, w');
    }
    QuietBounded(w, w', bound, p);
  }

  lemma LinkForce(w: World, p: Pid, w': World)
    requires Linking(w, p, w')
    ensures InForce(w') <= InForce(w) + {NameFor(At(w, p).op.key)}
  {
    hide MarkerText, Force;
  }

  lemma LinkBacked(w: World, p: Pid, w': World)
    requires Backed(w) && Linking(w, p, w') && forall n :: Forced(w, n) ==> Holds(w'.disk, n)
    ensures Backed(w')
  {
    hide MarkerText, Force;
    forall n | IsMarkerName(n) && Stored(w'.disk, n) && Force(StoredText(w'.disk, n), w'.clock)
      ensures Holds(w'.disk, n) && Content(w'.disk, n) == StoredText(w'.disk, n)
    {
      assert StoredText(w.disk, n) == StoredText(w'.disk, n);
      assert Forced(w, n);
    }
  }

  lemma LinkBounded(w: World, p: Pid, name: string, ino: nat, w': World, bound: nat)
    requires Inv(w) && Inv(w') && Bounded(w, bound) && Step(w, Go(p, name, ino), w') && Linking(w, p, w')
    ensures Bounded(w', bound)
  {
    hide InForce, Backed, Forced, GoStep, DiskInv, LogInv, LockInv, OpInv;
    forall n | Forced(w, n) ensures Holds(w'.disk, n) {
      ForceStays(w, p, name, ino, w', n);
    }
    LinkBacked(w, p, w');
    LinkForce(w, p, w');
    assert Counted(w, At(w, p));
    SmallerSet(InForce(w'), InForce(w) + {NameFor(At(w, p).op.key)});
    forall q: Pid ensures Counted(w', At(w', q)) {
      if q != p && At(w, q).Busy() {
        OneWriter(w, p, q);
      }
    }
  }

  lemma PowerLossBounded(w: World, bound: nat)
    requires Inv(w) && Bounded(w, bound)
    ensures Bounded(PowerLost(w), bound)
  {
    hide LogInv, LockInv, OpInv, Force, MarkerText;
    var w' := PowerLost(w);
    forall n | n in InForce(w') ensures n in InForce(w) {
      assert Sealed(w.disk, w.disk.durable[n], w.floor);
      assert Force(StoredText(w.disk, n), w.clock);
    }
    SmallerSet(InForce(w'), InForce(w));
  }

  lemma CallBounded(w: World, p: Pid, op: Op, w': World, bound: nat)
    requires Bounded(w, bound) && CallStep(w, p, op, w')
    ensures Bounded(w', bound)
  {
    hide InForce, Backed, MarkersKept;
    RemovedMarkers(w.disk, "");
    QuietBounded(w, w', bound, p);
  }

  lemma KernelBounded(w: World, l: Label, w': World, bound: nat)
    requires Bounded(w, bound) && (l.Flush? || l.WriteBack? || l.Kill?) && Step(w, l, w')
    ensures Bounded(w', bound)
  {
    hide InForce, Backed, MarkersKept, Counted;
    RemovedMarkers(w.disk, "");
    if l.Flush? {
      FlushedMarkers(w.disk, l.name);
    } else if l.WriteBack? {
      WrittenBackMarkers(w.disk, l.ino, l.bytes);
    }
    var p := if l.Kill? then l.pid else 0;
    if InForce(w') <= InForce(w) && !l.Kill? {
      CountedSmaller(w, w', At(w, p));
    }
    NothingToCount(w');
    QuietBounded(w, w', bound, p);
  }

  lemma NothingToCount(w: World)
    ensures Counted(w, Down)
  {
  }

  lemma StepBounded(w: World, l: Label, w': World, bound: nat)
    requires Inv(w) && Inv(w') && Bounded(w, bound) && Step(w, l, w')
    ensures Bounded(w', bound)
  {
    hide Inv, Bounded, CallStep, GoStep, Quiet, Linking;
    match l
    case Flush(_) => KernelBounded(w, l, w', bound);
    case WriteBack(_, _) => KernelBounded(w, l, w', bound);
    case Kill(_) => KernelBounded(w, l, w', bound);
    case PowerLoss => PowerLossBounded(w, bound);
    case Call(p, key, expiry, now) => CallBounded(w, p, Op(key, expiry, now, 0), w', bound);
    case Go(p, name, ino) =>
      GoQuiet(w, p, name, ino, w');
      if Quiet(w, p, w') {
        GoBounded(w, p, name, ino, w', bound);
      } else {
        LinkBounded(w, p, name, ino, w', bound);
      }
  }

  lemma FirstBounded(w: World)
    requires Init(w)
    ensures Bounded(w, if w.capacity < |InForce(w)| then |InForce(w)| else w.capacity)
  {
    hide Force;
  }

  lemma {:induction false} RunBounded(ws: seq<World>, ls: seq<Label>, i: nat, bound: nat)
    requires Run(ws, ls) && Init(ws[0]) && Bounded(ws[0], bound) && i < |ws|
    ensures Bounded(ws[i], bound)
  {
    hide Bounded, Step, Init;
    if i > 0 {
      RunBounded(ws, ls, i - 1, bound);
      RunInv(ws, ls, i - 1);
      RunInv(ws, ls, i);
      assert StepAt(ws, ls, i - 1);
      StepBounded(ws[i - 1], ls[i - 1], ws[i], bound);
    }
  }

  /** At every moment of every run, with any failures, kills and power losses, no more markers are in force than the
      capacity, or than were at the start if those were more. */
  lemma CapacityKept(ws: seq<World>, ls: seq<Label>, i: nat)
    requires Run(ws, ls) && Init(ws[0]) && i < |ws|
    ensures |InForce(ws[i])| <= if ws[0].capacity < |InForce(ws[0])| then |InForce(ws[0])| else ws[0].capacity
  {
    hide Step, Init, InForce, Backed, Counted;
    FirstBounded(ws[0]);
    RunBounded(ws, ls, i, if ws[0].capacity < |InForce(ws[0])| then |InForce(ws[0])| else ws[0].capacity);
  }

  // ---- Negative expiries ----

  /** An unreadable marker, in the directory and on the platter. */
  predicate Unreadable(d: Disk, n: string) {
    && IsMarkerName(n) && Holds(d, n) && ParseExpiry(Content(d, n)).None?
    && n in d.durable && d.durable[n] == d.dir[n]
  }

  /** No call can get past the unreadable marker. */
  ghost predicate Jammed(w: World, n: string) {
    Unreadable(w.disk, n) && forall q: Pid :: Stuck(At(w, q), n)
  }

  /** The sweep of this process, if there is one, has the marker still to visit. */
  predicate Stuck(ph: Phase, n: string) {
    ph.Busy() ==> ph.List? || (ph.Clean? && n in ph.todo)
  }

  predicate OnlyErrors(log: seq<Event>, log': seq<Event>) {
    log <= log' && forall i :: |log| <= i < |log'| ==> log'[i].status == Failed
  }

  lemma UnreadableKept(d: Disk, n: string, name: string, ino: nat, bytes: string)
    requires Unreadable(d, n)
    ensures name != n ==> Unreadable(Removed(d, name), n)
    ensures name != n && ino !in d.inodes ==> Unreadable(Created(d, name, ino), n)
    ensures Unreadable(DirSynced(d), n) && Unreadable(Flushed(d, name), n) && Unreadable(WrittenBack(d, ino, bytes), n)
  {
  }

  lemma JamOpens(w: World, p: Pid, ino: nat, w': World, n: string)
    requires Jammed(w, n)
    requires (At(w, p).Down? && OpenStep(w, p, ino, w')) || (At(w, p).Handle? && LockStep(w, p, w'))
    ensures Jammed(w', n) && w'.log == w.log
  {
    hide Unreadable;
    MarkerIsNotLock(w.disk, n);
    UnreadableKept(w.disk, n, LOCK_NAME, ino, "");
    forall q: Pid ensures Stuck(At(w', q), n) {
      assert Stuck(At(w, q), n);
    }
  }

  lemma MarkerIsNotLock(d: Disk, n: string)
    requires Unreadable(d, n)
    ensures n != LOCK_NAME && !IsPendingName(n) && ExpiryOf(d, n).None? && n in d.dir && IsMarkerName(n)
  {
    NamesDisjoint(n);
  }

  lemma JamStarts(w: World, p: Pid, name: string, w': World, n: string)
    requires Jammed(w, n) && StartupStep(w, p, name, w')
    ensures Jammed(w', n) && w'.log == w.log
  {
    hide Unreadable;
    MarkerIsNotLock(w.disk, n);
    UnreadableKept(w.disk, n, name, 0, "");
    forall q: Pid ensures Stuck(At(w', q), n) {
      assert Stuck(At(w, q), n);
    }
  }

  /** The cleanup of a call cannot get past it. */
  lemma JamCleans(w: World, p: Pid, name: string, w': World, n: string)
    requires Jammed(w, n) && CleanStep(w, p, name, w')
    ensures Jammed(w', n) && OnlyErrors(w.log, w'.log)
  {
    hide Unreadable;
    MarkerIsNotLock(w.disk, n);
    assert Stuck(At(w, p), n);
    UnreadableKept(w.disk, n, name, 0, "");
    forall q: Pid ensures Stuck(At(w', q), n) {
      assert Stuck(At(w, q), n);
    }
  }

  lemma StuckAt(w: World, n: string, q: Pid)
    requires Jammed(w, n)
    ensures Stuck(At(w, q), n)
  {
  }

  lemma JamGoes(w: World, p: Pid, name: string, ino: nat, w': World, n: string)
    requires Jammed(w, n) && GoStep(w, p, name, ino, w')
    ensures Jammed(w', n) && OnlyErrors(w.log, w'.log)
  {
    hide Jammed, OpenStep, LockStep, StartupStep, CleanStep;
    StuckAt(w, n, p);
    match At(w, p)
    case Down => JamOpens(w, p, ino, w', n);
    case Handle(_) => JamOpens(w, p, ino, w', n);
    case Locked => JamStarts(w, p, name, w', n);
    case Scavenge(_, _) => JamStarts(w, p, name, w', n);
    case ScavengeSync => JamStarts(w, p, name, w', n);
    case List(_) => JamCleans(w, p, name, w', n);
    case Clean(_, _, _) => JamCleans(w, p, name, w', n);
    case Idle =>
  }

  lemma JamSurvives(w: World, n: string)
    requires Inv(w) && Jammed(w, n)
    ensures Jammed(PowerLost(w), n)
  {
    hide LogInv, LockInv, OpInv;
    assert Sealed(w.disk, w.disk.durable[n], w.floor);
  }

  /** Nothing gets a jammed directory going again: every step keeps it, and every answer is an error. */
  lemma JamStays(w: World, l: Label, w': World, n: string)
    requires Inv(w) && Jammed(w, n) && Step(w, l, w')
    ensures Jammed(w', n) && OnlyErrors(w.log, w'.log)
  {
    hide Inv, Unreadable, GoStep;
    if l.PowerLoss? {
      JamSurvives(w, n);
    } else if l.Go? {
      JamGoes(w, l.pid, l.name, l.ino, w', n);
    } else {
      if l.Flush? {
        UnreadableKept(w.disk, n, l.name, 0, "");
      } else if l.WriteBack? {
        UnreadableKept(w.disk, n, "", l.ino, l.bytes);
      }
      forall q: Pid ensures Stuck(At(w', q), n) {
        StuckAt(w, n, q);
      }
    }
  }

  /** A negative expiry answered `Fresh` jams the directory. */
  lemma NegativeJams(w: World, l: Label, w': World, e: Event)
    requires Inv(w) && Step(w, l, w') && w'.log == w.log + [e] && e.status.Fresh? && e.expiry < 0
    ensures Jammed(w', NameFor(e.key))
  {
    hide DiskInv, LogInv, LockInv, GoStep;
    StepFrame(w, l, w');
    assert w'.log[|w.log|] == e;
    var p := l.pid;
    FreshFrom(w, p, w');
    FreshWorld(w, p, w');
    MarkerReads(e.expiry);
    forall q: Pid ensures Stuck(At(w', q), NameFor(e.key)) {
      if q != p && At(w, q).Busy() {
        OneWriter(w, p, q);
      }
    }
  }

  lemma FreshWorld(w: World, p: Pid, w': World)
    requires At(w, p).SyncUnlink? && PublishStep(w, p, w') && |w'.log| == |w.log| + 1
    ensures w' == Answer(w, p, DirSynced(w.disk), At(w, p).op, Fresh)
  {
  }

  /** A negative expiry was answered `Fresh`. */
  predicate Negative(e: Event) {
    e.status.Fresh? && e.expiry < 0
  }

  /** From a negative `Fresh` on there are only errors, and the directory is jammed. */
  ghost predicate JamLog(w: World) {
    forall a :: 0 <= a < |w.log| && Negative(w.log[a]) ==>
      Jammed(w, NameFor(w.log[a].key)) && forall b :: a < b < |w.log| ==> w.log[b].status == Failed
  }

  lemma JamLogStays(w: World, l: Label, w': World)
    requires Inv(w) && JamLog(w) && Step(w, l, w')
    ensures JamLog(w')
  {
    hide Inv, Step, Jammed;
    LogGrows(w, l, w');
    forall a | 0 <= a < |w'.log| && Negative(w'.log[a])
      ensures Jammed(w', NameFor(w'.log[a].key)) && forall b :: a < b < |w'.log| ==> w'.log[b].status == Failed
    {
      if a < |w.log| {
        assert w'.log[a] == w.log[a];
        JamStays(w, l, w', NameFor(w.log[a].key));
        forall b | a < b < |w'.log| ensures w'.log[b].status == Failed {
          if b < |w.log| {
            assert w'.log[b] == w.log[b];
          }
        }
      } else {
        assert w'.log == w.log + [w'.log[a]];
        NegativeJams(w, l, w', w'.log[a]);
      }
    }
  }

  /** A step answers at most once. */
  lemma LogGrows(w: World, l: Label, w': World)
    requires Inv(w) && Step(w, l, w')
    ensures w.log <= w'.log && |w'.log| <= |w.log| + 1
  {
    hide Inv, GoStep, MarkersKept;
    if l.Go? {
      GoQuiet(w, l.pid, l.name, l.ino, w');
    }
  }

  lemma {:induction false} RunJams(ws: seq<World>, ls: seq<Label>, i: nat)
    requires Run(ws, ls) && Init(ws[0]) && i < |ws|
    ensures JamLog(ws[i])
  {
    hide JamLog, Step;
    if i == 0 {
      NothingJams(ws[0]);
    } else {
      RunJams(ws, ls, i - 1);
      RunInv(ws, ls, i - 1);
      assert StepAt(ws, ls, i - 1);
      JamLogStays(ws[i - 1], ls[i - 1], ws[i]);
    }
  }

  lemma NothingJams(w: World)
    requires Init(w)
    ensures JamLog(w)
  {
  }

  /** Over every run with any failures, kills, power losses and restarts: once a negative expiry was answered
      `Fresh`, every later answer of the directory is an error. */
  lemma NegativeExpiryJams(ws: seq<World>, ls: seq<Label>, i: nat, a: nat, b: nat)
    requires Run(ws, ls) && Init(ws[0]) && i < |ws| && a < b < |ws[i].log|
    requires ws[i].log[a].status.Fresh? && ws[i].log[a].expiry < 0
    ensures ws[i].log[b].status == Failed
  {
    hide Init, Step, Jammed;
    RunJams(ws, ls, i);
    assert Negative(ws[i].log[a]);
  }
}
