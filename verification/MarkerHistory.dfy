/** Where the markers of a directory come from, over every run of the replay machine
    (crates/keylix-verifier/src/replay.rs, lines 157 to 313). */
module MarkerHistory {
  import opened Text
  import opened ReplayLog
  import opened MarkerFiles
  import opened ReplayMachine
  import opened CrashSafety

  /** The name would be there after a power loss. */
  predicate Stored(d: Disk, n: string) {
    n in d.durable && d.durable[n] in d.inodes
  }

  function StoredText(d: Disk, n: string): string
    requires Stored(d, n)
  {
    d.inodes[d.durable[n]].data
  }

  // ---- What a step does to markers ----

  /** Every marker was there before with the same bytes, seen or durable. */
  ghost predicate MarkersKept(d: Disk, d': Disk) {
    && (forall n :: IsMarkerName(n) && Holds(d', n) ==> Holds(d, n) && Content(d', n) == Content(d, n))
    && (forall n :: IsMarkerName(n) && Stored(d', n) ==>
          || (Stored(d, n) && StoredText(d', n) == StoredText(d, n))
          || (Holds(d, n) && StoredText(d', n) == Content(d, n)))
  }

  lemma RemovedMarkers(d: Disk, name: string)
    ensures MarkersKept(d, Removed(d, name)) && MarkersKept(d, d)
  {
  }

  lemma SyncedMarkers(d: Disk)
    ensures MarkersKept(d, DirSynced(d))
  {
  }

  lemma FlushedMarkers(d: Disk, name: string)
    ensures MarkersKept(d, Flushed(d, name))
  {
  }

  lemma WrittenBackMarkers(d: Disk, ino: nat, bytes: string)
    ensures MarkersKept(d, WrittenBack(d, ino, bytes))
  {
  }

  lemma CreatedMarkers(d: Disk, name: string, ino: nat, floor: I64)
    requires DiskInv(d, floor) && !IsMarkerName(name) && ino !in d.inodes
    ensures MarkersKept(d, Created(d, name, ino))
  {
  }

  /** Changing a file that no marker entry points to. */
  lemma FileMarkers(d: Disk, ino: nat, file: Inode)
    requires ino in d.inodes && Unpublished(d, ino)
    ensures MarkersKept(d, d.(inodes := d.inodes[ino := file]))
  {
  }

  /** Phases before the link of a call. */
  predicate Early(ph: Phase) {
    ph.List? || ph.Clean? || ph.Probe? || ph.Evict? || ph.Create? || ph.Write? || ph.SyncFile? || ph.Link?
  }

  /** The same call goes on, in its first attempt only if it was there before and has not linked yet. */
  predicate SameCall(a: Phase, b: Phase) {
    b.Busy() ==>
      && a.Busy() && b.op.key == a.op.key && b.op.expiry == a.op.expiry && b.op.now == a.op.now
      && (Early(b) && b.op.attempt == 0 ==> Early(a) && a.op.attempt == 0)
  }

  predicate OwnInForce(d: Disk, op: Op) {
    ExpiryOf(d, NameFor(op.key)).Some? && ExpiryOf(d, NameFor(op.key)).value >= op.now
  }

  /** What a step of `p` may answer: an error, a replay of a readable marker in force, or `Fresh` at the end. */
  predicate MayAnswer(w: World, p: Pid, status: Status) {
    && At(w, p).Busy()
    && (status.Replay? ==> At(w, p).Probe? && OwnInForce(w.disk, At(w, p).op))
    && (status.Fresh? ==> At(w, p).SyncUnlink?)
  }

  predicate Says(w: World, p: Pid, w': World, status: Status) {
    MayAnswer(w, p, status)
    && w'.log == w.log + [Event(At(w, p).op.key, At(w, p).op.expiry, At(w, p).op.now, status)]
    && At(w', p).Idle?
  }

  predicate Spoken(w: World, p: Pid, w': World) {
    w'.log == w.log || Says(w, p, w', Failed) || Says(w, p, w', Replay) || Says(w, p, w', Fresh)
  }

  /** A step of `p` that links nothing. */
  ghost predicate Quiet(w: World, p: Pid, w': World) {
    && MarkersKept(w.disk, w'.disk) && SameCall(At(w, p), At(w', p)) && Spoken(w, p, w')
    && w'.clock == w.clock && w'.capacity == w.capacity
    && forall q: Pid :: q != p ==> At(w', q) == At(w, q)
  }

  lemma OpenQuiet(w: World, p: Pid, ino: nat, w': World)
    requires Inv(w) && At(w, p).Down? && OpenStep(w, p, ino, w')
    ensures Quiet(w, p, w')
  {
    hide MarkersKept;
    RemovedMarkers(w.disk, "");
    NamesDisjoint(LOCK_NAME);
    if w'.disk != w.disk {
      CreatedMarkers(w.disk, LOCK_NAME, ino, w.floor);
    }
  }

  lemma LockQuiet(w: World, p: Pid, w': World)
    requires At(w, p).Handle? && LockStep(w, p, w')
    ensures Quiet(w, p, w')
  {
    hide MarkersKept;
    RemovedMarkers(w.disk, "");
  }

  lemma StartupQuiet(w: World, p: Pid, name: string, w': World)
    requires StartupStep(w, p, name, w')
    ensures Quiet(w, p, w')
  {
    hide MarkersKept;
    RemovedMarkers(w.disk, name);
    SyncedMarkers(w.disk);
  }

  lemma CleanQuiet(w: World, p: Pid, name: string, w': World)
    requires CleanStep(w, p, name, w')
    ensures Quiet(w, p, w')
  {
    hide MarkersKept;
    RemovedMarkers(w.disk, name);
  }

  lemma ProbeQuiet(w: World, p: Pid, w': World)
    requires || (At(w, p).Probe? && ProbeStep(w, p, w'))
             || (At(w, p).Evict? && EvictStep(w, p, w'))
    ensures Quiet(w, p, w')
  {
    hide MarkersKept;
    RemovedMarkers(w.disk, NameFor(At(w, p).op.key));
  }

  lemma CreateQuiet(w: World, p: Pid, name: string, ino: nat, w': World)
    requires Inv(w) && At(w, p).Create? && CreateStep(w, p, name, ino, w')
    ensures Quiet(w, p, w')
  {
    hide MarkersKept, DiskInv;
    RemovedMarkers(w.disk, "");
    if w'.disk != w.disk {
      NamesDisjoint(name);
      CreatedMarkers(w.disk, name, ino, w.floor);
    }
  }

  lemma StageQuiet(w: World, p: Pid, count: nat, w': World)
    requires Inv(w)
    requires || (At(w, p).Write? && WriteStep(w, p, count, w'))
             || (At(w, p).SyncFile? && SyncFileStep(w, p, w'))
    ensures Quiet(w, p, w')
  {
    hide MarkersKept, DiskInv, LogInv, LockInv;
    assert OpInv(w, p);
    RemovedMarkers(w.disk, "");
    if w'.disk != w.disk {
      FileMarkers(w.disk, At(w, p).ino, w'.disk.inodes[At(w, p).ino]);
    }
  }

  lemma PublishQuiet(w: World, p: Pid, w': World)
    requires PublishStep(w, p, w')
    ensures Quiet(w, p, w')
  {
    hide MarkersKept;
    RemovedMarkers(w.disk, At(w, p).pending);
    SyncedMarkers(w.disk);
  }

  lemma AbandonQuiet(w: World, p: Pid, w': World)
    requires AbandonStep(w, p, w')
    ensures Quiet(w, p, w')
  {
    hide MarkersKept;
    RemovedMarkers(w.disk, At(w, p).pending);
    SyncedMarkers(w.disk);
  }

  /** The link step of `p` puts its marker into the directory, or changes nothing. */
  ghost predicate Linking(w: World, p: Pid, w': World) {
    && At(w, p).Link? && !Early(At(w', p)) && SameCall(At(w, p), At(w', p))
    && w'.log == w.log && w'.clock == w.clock && w'.capacity == w.capacity
    && (forall q: Pid :: q != p ==> At(w', q) == At(w, q))
    && w'.disk.durable == w.disk.durable && w'.disk.inodes == w.disk.inodes
    && (|| w'.disk == w.disk
        || (&& NameFor(At(w, p).op.key) !in w.disk.dir
            && forall n :: IsMarkerName(n) && Holds(w'.disk, n) ==>
                 || (Holds(w.disk, n) && Content(w'.disk, n) == Content(w.disk, n))
                 || (n == NameFor(At(w, p).op.key) && Content(w'.disk, n) == MarkerText(At(w, p).op.expiry))))
  }

  lemma LinkLinks(w: World, p: Pid, w': World)
    requires Inv(w) && At(w, p).Link? && LinkStep(w, p, w')
    ensures Linking(w, p, w')
  {
    hide DiskInv, LogInv, LockInv;
    assert OpInv(w, p);
  }

  /** Every process step is quiet or links. */
  lemma GoQuiet(w: World, p: Pid, name: string, ino: nat, w': World)
    requires Inv(w) && GoStep(w, p, name, ino, w')
    ensures Quiet(w, p, w') || Linking(w, p, w')
  {
    hide Inv, Quiet, Linking, OpenStep, LockStep, StartupStep, CleanStep, ProbeStep, EvictStep, CreateStep,
         WriteStep, SyncFileStep, LinkStep, PublishStep, AbandonStep;
    match At(w, p)
    case Down => OpenQuiet(w, p, ino, w');
    case Handle(_) => LockQuiet(w, p, w');
    case Locked => StartupQuiet(w, p, name, w');
    case Scavenge(_, _) => StartupQuiet(w, p, name, w');
    case ScavengeSync => StartupQuiet(w, p, name, w');
    case Idle =>
    case List(_) => CleanQuiet(w, p, name, w');
    case Clean(_, _, _) => CleanQuiet(w, p, name, w');
    case Probe(_, _) => ProbeQuiet(w, p, w');
    case Evict(_, _) => ProbeQuiet(w, p, w');
    case Create(_, _) => CreateQuiet(w, p, name, ino, w');
    case Write(_, _, _, _) => StageQuiet(w, p, ino, w');
    case SyncFile(_, _, _) => StageQuiet(w, p, ino, w');
    case Link(_, _, _) => LinkLinks(w, p, w');
    case SyncLink(_, _) => PublishQuiet(w, p, w');
    case Unlink(_, _) => PublishQuiet(w, p, w');
    case SyncUnlink(_, _) => PublishQuiet(w, p, w');
    case ProbeFinal(_, _) => AbandonQuiet(w, p, w');
    case DropPending(_, _, _) => AbandonQuiet(w, p, w');
    case DropSync(_, _, _) => AbandonQuiet(w, p, w');
  }

  // ---- Where markers come from ----

  /** A call that would write this marker. */
  predicate MadeBy(l: Label, n: string, text: string) {
    l.Call? && NameFor(l.key) == n && text == MarkerText(l.expiry)
  }

  /** The marker was in the first directory, or one of the first `m` labels is a call that would write it. */
  predicate Source(first: Disk, ls: seq<Label>, m: nat, n: string, text: string) {
    || (Holds(first, n) && Content(first, n) == text)
    || exists k :: 0 <= k < m && k < |ls| && MadeBy(ls[k], n, text)
  }

  ghost predicate AllSourced(first: Disk, ls: seq<Label>, m: nat, d: Disk) {
    && (forall n :: IsMarkerName(n) && Holds(d, n) ==> Source(first, ls, m, n, Content(d, n)))
    && (forall n :: IsMarkerName(n) && Stored(d, n) ==> Source(first, ls, m, n, StoredText(d, n)))
  }

  /** Label `k` is the call that `q` is in the middle of: no call was made since, and until it links every marker
      is older than it. */
  ghost predicate InCall(first: Disk, ls: seq<Label>, i: nat, w: World, q: Pid, k: nat)
    requires At(w, q).Busy()
  {
    var op := At(w, q).op;
    && k < i <= |ls| && ls[k] == Call(q, op.key, op.expiry, op.now)
    && (forall m :: k < m < i ==> !ls[m].Call?)
    && (Early(At(w, q)) && op.attempt == 0 ==> AllSourced(first, ls, k, w.disk))
  }

  ghost predicate HasCall(first: Disk, ls: seq<Label>, i: nat, w: World, q: Pid)
    requires At(w, q).Busy()
  {
    exists k: nat :: InCall(first, ls, i, w, q, k)
  }

  ghost predicate History(first: Disk, ls: seq<Label>, i: nat, w: World) {
    && i <= |ls| && AllSourced(first, ls, i, w.disk)
    && forall q: Pid :: At(w, q).Busy() ==> HasCall(first, ls, i, w, q)
  }

  lemma SourcedLater(first: Disk, ls: seq<Label>, m: nat, m': nat, d: Disk)
    requires AllSourced(first, ls, m, d) && m <= m'
    ensures AllSourced(first, ls, m', d)
  {
    forall n, text | Source(first, ls, m, n, text) ensures Source(first, ls, m', n, text) {
    }
  }

  lemma KeptSourced(first: Disk, ls: seq<Label>, m: nat, d: Disk, d': Disk)
    requires AllSourced(first, ls, m, d) && MarkersKept(d, d')
    ensures AllSourced(first, ls, m, d')
  {
    hide Source;
  }

  /** A step without a link or a call: every marker and every call goes on as it was. */
  lemma QuietHistory(first: Disk, ls: seq<Label>, i: nat, w: World, w': World)
    requires History(first, ls, i, w) && i < |ls| && !ls[i].Call? && MarkersKept(w.disk, w'.disk)
    requires forall q: Pid :: SameCall(At(w, q), At(w', q))
    ensures History(first, ls, i + 1, w')
  {
    hide Source, MarkersKept, AllSourced;
    KeptSourced(first, ls, i, w.disk, w'.disk);
    SourcedLater(first, ls, i, i + 1, w'.disk);
    forall q: Pid | At(w', q).Busy() ensures HasCall(first, ls, i + 1, w', q) {
      assert SameCall(At(w, q), At(w', q)) && HasCall(first, ls, i, w, q);
      var k: nat :| InCall(first, ls, i, w, q, k);
      if Early(At(w', q)) && At(w', q).op.attempt == 0 {
        KeptSourced(first, ls, k, w.disk, w'.disk);
      }
      assert InCall(first, ls, i + 1, w', q, k);
    }
  }

  lemma LinkedSourced(first: Disk, ls: seq<Label>, i: nat, w: World, p: Pid, w': World)
    requires History(first, ls, i, w) && i < |ls| && Linking(w, p, w')
    ensures AllSourced(first, ls, i + 1, w'.disk)
  {
    SourcedLater(first, ls, i, i + 1, w.disk);
    assert HasCall(first, ls, i, w, p);
    var k: nat :| InCall(first, ls, i, w, p, k);
    var op := At(w, p).op;
    assert MadeBy(ls[k], NameFor(op.key), MarkerText(op.expiry));
    assert Source(first, ls, i + 1, NameFor(op.key), MarkerText(op.expiry));
  }

  lemma LinkHistory(first: Disk, ls: seq<Label>, i: nat, w: World, p: Pid, w': World)
    requires Inv(w) && History(first, ls, i, w) && i < |ls| && !ls[i].Call? && Linking(w, p, w')
    ensures History(first, ls, i + 1, w')
  {
    hide Source, AllSourced, DiskInv, LogInv, LockInv, OpInv;
    LinkedSourced(first, ls, i, w, p, w');
    forall q: Pid | At(w', q).Busy() ensures HasCall(first, ls, i + 1, w', q) {
      if q != p {
        OneWriter(w, p, q);
      }
      assert HasCall(first, ls, i, w, p);
      var k: nat :| InCall(first, ls, i, w, p, k);
      assert InCall(first, ls, i + 1, w', p, k);
    }
  }

  lemma CallHistory(first: Disk, ls: seq<Label>, i: nat, w: World, p: Pid, op: Op, w': World)
    requires Inv(w) && History(first, ls, i, w) && i < |ls| && ls[i] == Call(p, op.key, op.expiry, op.now)
    requires op.attempt == 0 && CallStep(w, p, op, w')
    ensures History(first, ls, i + 1, w')
  {
    hide Source, AllSourced, DiskInv, LogInv, LockInv, OpInv;
    SourcedLater(first, ls, i, i + 1, w.disk);
    forall q: Pid | At(w', q).Busy() ensures HasCall(first, ls, i + 1, w', q) {
      if q != p {
        OneWriter(w, p, q);
      }
      assert InCall(first, ls, i + 1, w', p, i);
    }
  }

  lemma PowerLossHistory(first: Disk, ls: seq<Label>, i: nat, w: World)
    requires Inv(w) && History(first, ls, i, w) && i < |ls|
    ensures History(first, ls, i + 1, PowerLost(w))
  {
    hide Source, LogInv, LockInv, OpInv;
    SourcedLater(first, ls, i, i + 1, w.disk);
    var d, d' := w.disk, PowerLost(w).disk;
    forall n | IsMarkerName(n) && n in d'.dir
      ensures Stored(d, n) && Holds(d', n) && Content(d', n) == StoredText(d, n)
    {
      assert Sealed(d, d.durable[n], w.floor);
    }
  }

  lemma StepHistory(first: Disk, ls: seq<Label>, i: nat, w: World, w': World)
    requires Inv(w) && History(first, ls, i, w) && i < |ls| && Step(w, ls[i], w')
    ensures History(first, ls, i + 1, w')
  {
    hide Inv, History, MarkersKept, CallStep, GoStep;
    match ls[i]
    case Flush(name) =>
      FlushedMarkers(w.disk, name);
      QuietHistory(first, ls, i, w, w');
    case WriteBack(ino, bytes) =>
      WrittenBackMarkers(w.disk, ino, bytes);
      QuietHistory(first, ls, i, w, w');
    case PowerLoss => PowerLossHistory(first, ls, i, w);
    case Kill(p) =>
      RemovedMarkers(w.disk, "");
      QuietHistory(first, ls, i, w, w');
    case Call(p, key, expiry, now) => CallHistory(first, ls, i, w, p, Op(key, expiry, now, 0), w');
    case Go(p, name, ino) =>
      GoQuiet(w, p, name, ino, w');
      if Linking(w, p, w') {
        LinkHistory(first, ls, i, w, p, w');
      } else {
        QuietHistory(first, ls, i, w, w');
      }
  }

  lemma {:induction false} RunHistory(ws: seq<World>, ls: seq<Label>, i: nat)
    requires Run(ws, ls) && Init(ws[0]) && i < |ws|
    ensures Inv(ws[i]) && History(ws[0].disk, ls, i, ws[i])
  {
    hide History, Inv;
    if i == 0 {
      FirstHistory(ws[0], ls);
      InitInv(ws[0]);
    } else {
      RunHistory(ws, ls, i - 1);
      assert StepAt(ws, ls, i - 1);
      StepHistory(ws[0].disk, ls, i - 1, ws[i - 1], ws[i]);
      StepInv(ws[i - 1], ls[i - 1], ws[i]);
    }
  }

  lemma FirstHistory(w: World, ls: seq<Label>)
    requires Init(w)
    ensures History(w.disk, ls, 0, w)
  {
  }

  /** Every marker in the directory, now or after a power loss, was there at the start or is the complete text of a
      call made before with its key and expiry. */
  lemma MarkerOrigin(ws: seq<World>, ls: seq<Label>, i: nat, n: string)
    requires Run(ws, ls) && Init(ws[0]) && i < |ws| && IsMarkerName(n)
    ensures Holds(ws[i].disk, n) ==> Source(ws[0].disk, ls, i, n, Content(ws[i].disk, n))
    ensures Stored(ws[i].disk, n) ==> Source(ws[0].disk, ls, i, n, StoredText(ws[i].disk, n))
  {
    hide Source;
    RunHistory(ws, ls, i);
  }

  /** Only a process step in `Probe` answers `Replay`. */
  lemma ReplayFrom(w: World, l: Label, w': World, e: Event)
    requires Inv(w) && Step(w, l, w') && w'.log == w.log + [e] && e.status == Replay
    ensures l.Go? && At(w, l.pid).Probe? && OwnInForce(w.disk, At(w, l.pid).op)
    ensures var op := At(w, l.pid).op; e.key == op.key && e.expiry == op.expiry && e.now == op.now
  {
    hide Inv, MarkersKept, GoStep;
    assert w'.log[|w.log|] == e;
    if l.Go? {
      GoQuiet(w, l.pid, l.name, l.ino, w');
    }
  }

  /** What a `Replay` answer means, over every run with any failures: the directory holds a readable marker of the
      key in force, which was there at the start or which a call with that key and expiry wrote. In the first
      attempt of a call that call is an earlier one; in the second it may be the call itself. */
  lemma ReplayOrigin(ws: seq<World>, ls: seq<Label>, i: nat, e: Event) returns (k: nat)
    requires Run(ws, ls) && Init(ws[0]) && i < |ls| && ws[i + 1].log == ws[i].log + [e] && e.status == Replay
    ensures ls[i].Go? && At(ws[i], ls[i].pid).Probe? && k < i
    ensures ls[k] == Call(ls[i].pid, e.key, e.expiry, e.now)
    ensures var d, n := ws[i].disk, NameFor(e.key);
            && OwnInForce(d, At(ws[i], ls[i].pid).op) && Holds(d, n)
            && Source(ws[0].disk, ls, if At(ws[i], ls[i].pid).op.attempt == 0 then k else k + 1, n, Content(d, n))
  {
    hide Inv, Step;
    RunHistory(ws, ls, i);
    var w := ws[i];
    assert StepAt(ws, ls, i);
    ReplayFrom(w, ls[i], ws[i + 1], e);
    assert HasCall(ws[0].disk, ls, i, w, ls[i].pid);
    k :| InCall(ws[0].disk, ls, i, w, ls[i].pid, k);
    var n, text := NameFor(e.key), Content(w.disk, NameFor(e.key));
    assert Source(ws[0].disk, ls, i, n, text);
    LastCall(ws[0].disk, ls, i, k, n, text);
  }

  lemma LastCall(first: Disk, ls: seq<Label>, i: nat, k: nat, n: string, text: string)
    requires k < i <= |ls| && Source(first, ls, i, n, text) && forall m :: k < m < i ==> !ls[m].Call?
    ensures Source(first, ls, k + 1, n, text)
  {
    if !(Holds(first, n) && Content(first, n) == text) {
      var j :| 0 <= j < i && j < |ls| && MadeBy(ls[j], n, text);
      assert j <= k;
    }
  }

  /** A key that no earlier call presented and that had no marker at the start is answered `Replay` only in the
      second attempt of its own call, on the marker that its own first attempt linked before it failed. */
  lemma FirstSeenReplay(ws: seq<World>, ls: seq<Label>, i: nat, e: Event) returns (k: nat)
    requires Run(ws, ls) && Init(ws[0]) && i < |ls| && ws[i + 1].log == ws[i].log + [e] && e.status == Replay
    requires NameFor(e.key) !in ws[0].disk.dir
    ensures k < i && ls[i].Go? && ls[k] == Call(ls[i].pid, e.key, e.expiry, e.now)
    ensures (forall m :: 0 <= m < k && ls[m].Call? ==> ls[m].key != e.key) ==>
              At(ws[i], ls[i].pid).Probe? && At(ws[i], ls[i].pid).op.attempt == 1
              && Holds(ws[i].disk, NameFor(e.key)) && Content(ws[i].disk, NameFor(e.key)) == MarkerText(e.expiry)
  {
    hide Inv, Step, Source, OwnInForce;
    k := ReplayOrigin(ws, ls, i, e);
    CrashSafe(ws, ls, i);
    var op, text := At(ws[i], ls[i].pid).op, Content(ws[i].disk, NameFor(e.key));
    OnlyOwnCall(ws[0].disk, ls, if op.attempt == 0 then k else k + 1, k, e.key, text);
  }

  lemma OnlyOwnCall(first: Disk, ls: seq<Label>, m: nat, k: nat, key: ReplayKey, text: string)
    requires m <= k + 1 && k < |ls| && ls[k].Call? && ls[k].key == key && NameFor(key) !in first.dir
    requires Source(first, ls, m, NameFor(key), text)
    ensures (forall j :: 0 <= j < k && ls[j].Call? ==> ls[j].key != key) ==>
            m == k + 1 && text == MarkerText(ls[k].expiry)
  {
    hide NameFor, MarkerText;
    var j :| 0 <= j < m && j < |ls| && MadeBy(ls[j], NameFor(key), text);
    NamesAreKeys(key, NameFor(key));
    NamesAreKeys(ls[j].key, NameFor(key));
  }

  /** A step of `p` in `Probe` that answers `Replay`. */
  ghost predicate Replays(w: World, p: Pid)
    requires At(w, p).Probe?
  {
    var op := At(w, p).op;
    exists w' :: Step(w, Go(p, "", 0), w') && w'.log == w.log + [Event(op.key, op.expiry, op.now, Replay)]
  }

  /** Exactly when a key that no other call presented and that had no marker at the start can be answered `Replay`:
      in the second attempt, if the marker that the call itself linked is there and its expiry is not negative. */
  lemma ReplayableWhen(ws: seq<World>, ls: seq<Label>, i: nat, p: Pid, k: nat)
    requires Run(ws, ls) && Init(ws[0]) && i < |ws| && At(ws[i], p).Probe?
    requires NameFor(At(ws[i], p).op.key) !in ws[0].disk.dir
    requires forall m :: 0 <= m < i && ls[m].Call? && ls[m].key == At(ws[i], p).op.key ==> m == k
    ensures var op, d := At(ws[i], p).op, ws[i].disk;
            Replays(ws[i], p) <==>
              && op.attempt == 1 && 0 <= op.expiry
              && Holds(d, NameFor(op.key)) && Content(d, NameFor(op.key)) == MarkerText(op.expiry)
  {
    hide Inv, Step, Source, MarkerText;
    RunInv(ws, ls, i);
    var w, op := ws[i], At(ws[i], p).op;
    MarkerReads(op.expiry);
    ProbedOp(w, p);
    if Replays(w, p) {
      var e := Event(op.key, op.expiry, op.now, Replay);
      var w' :| Step(w, Go(p, "", 0), w') && w'.log == w.log + [e];
      ReplayFrom(w, Go(p, "", 0), w', e);
      OwnMarkerOnly(ws, ls, i, p, k);
    } else if Holds(w.disk, NameFor(op.key)) && Content(w.disk, NameFor(op.key)) == MarkerText(op.expiry)
        && 0 <= op.expiry {
      AnswersReplay(w, p, Answer(w, p, w.disk, op, Replay));
    }
  }

  lemma ProbedOp(w: World, p: Pid)
    requires Inv(w) && At(w, p).Probe?
    ensures At(w, p).op.now <= At(w, p).op.expiry && At(w, p).op.attempt <= 1
  {
    assert OpInv(w, p);
  }

  lemma AnswersReplay(w: World, p: Pid, w': World)
    requires At(w, p).Probe? && OwnInForce(w.disk, At(w, p).op) && w' == Answer(w, p, w.disk, At(w, p).op, Replay)
    ensures Step(w, Go(p, "", 0), w')
    ensures var op := At(w, p).op; w'.log == w.log + [Event(op.key, op.expiry, op.now, Replay)]
  {
  }

  /** The only marker that such a key can have is the one of its own call, linked in an earlier attempt. */
  lemma OwnMarkerOnly(ws: seq<World>, ls: seq<Label>, i: nat, p: Pid, k: nat)
    requires Run(ws, ls) && Init(ws[0]) && i < |ws| && At(ws[i], p).Probe?
    requires NameFor(At(ws[i], p).op.key) !in ws[0].disk.dir && Holds(ws[i].disk, NameFor(At(ws[i], p).op.key))
    requires forall m :: 0 <= m < i && ls[m].Call? && ls[m].key == At(ws[i], p).op.key ==> m == k
    ensures var op := At(ws[i], p).op;
            op.attempt != 0 && Content(ws[i].disk, NameFor(op.key)) == MarkerText(op.expiry)
  {
    hide Inv, Step, Source, MarkerText;
    RunHistory(ws, ls, i);
    var w, op, first := ws[i], At(ws[i], p).op, ws[0].disk;
    assert HasCall(first, ls, i, w, p);
    var c: nat :| InCall(first, ls, i, w, p, c);
    assert c == k;
    var n, text := NameFor(op.key), Content(w.disk, NameFor(op.key));
    if op.attempt == 0 {
      assert Source(first, ls, k, n, text);
      OnlyOwnCall(first, ls, k, k, op.key, text);
    } else {
      assert Source(first, ls, i, n, text);
      LastCall(first, ls, i, k, n, text);
      OnlyOwnCall(first, ls, k + 1, k, op.key, text);
    }
  }
}
