/** A run in which a key that was never presented before is answered `Replay`
    (crates/keylix-verifier/src/replay.rs, lines 255 to 309). */
module SelfReplay {
  import opened Text
  import opened ReplayLog
  import opened MarkerFiles
  import opened ReplayMachine
  import opened CrashSafety

  // ---- A store opens on an empty directory ----

  const EMPTY := Disk(map[], map[], map[])

  function Start(clock: I64, capacity: nat): World {
    World(EMPTY, map[], map[], clock, clock, capacity, [])
  }

  /** The store is open and waits: the directory holds the lock file. */
  predicate Opened(w: World, p: Pid, clock: I64, capacity: nat) {
    && At(w, p).Idle? && w.disk.dir == map[LOCK_NAME := 0] && w.disk.inodes.Keys == {0}
    && w.clock == clock && w.capacity == capacity && w.log == []
  }

  lemma Opens(p: Pid, clock: I64, capacity: nat) returns (ws: seq<World>, ls: seq<Label>)
    ensures Run(ws, ls) && ws[0] == Start(clock, capacity) && Opened(ws[|ls|], p, clock, capacity)
  {
    hide Step;
    var w, d := Start(clock, capacity), Created(EMPTY, LOCK_NAME, 0);
    var w1 := Goto(w, p, d, Handle(0));
    var w2 := Goto(w1, p, d, Locked).(locks := map[0 := p]);
    var w3 := Goto(w2, p, d, Scavenge({LOCK_NAME}, false));
    var w4 := Goto(w3, p, d, Scavenge({}, false));
    var w5 := Goto(w4, p, d, Idle);
    LocksEmpty(w, p, w1, w2);
    ScavengesNothing(w2, p, w3, w4, w5);
    var go := Go(p, "", 0);
    ws, ls := [w, w1, w2, w3, w4, w5], [go, go, go, Go(p, LOCK_NAME, 0), go];
    forall i | 0 <= i < |ls| ensures StepAt(ws, ls, i) {
    }
  }

  lemma LocksEmpty(w: World, p: Pid, w1: World, w2: World)
    requires At(w, p).Down? && w.disk == EMPTY && w.locks == map[]
    requires w1 == Goto(w, p, Created(EMPTY, LOCK_NAME, 0), Handle(0))
    requires w2 == Goto(w1, p, w1.disk, Locked).(locks := map[0 := p])
    ensures Step(w, Go(p, "", 0), w1) && Step(w1, Go(p, "", 0), w2)
  {
    assert CreateIo(w.disk, w1.disk, LOCK_NAME, 0, true);
  }

  lemma ScavengesNothing(w: World, p: Pid, w1: World, w2: World, w3: World)
    requires At(w, p).Locked? && w.disk.dir.Keys == {LOCK_NAME}
    requires w1 == Goto(w, p, w.disk, Scavenge({LOCK_NAME}, false)) && w2 == Goto(w1, p, w.disk, Scavenge({}, false))
    requires w3 == Goto(w2, p, w.disk, Idle)
    ensures Step(w, Go(p, "", 0), w1) && Step(w1, Go(p, LOCK_NAME, 0), w2) && Step(w2, Go(p, "", 0), w3)
  {
    hide OpenStep, LockStep, CleanStep, ProbeStep, EvictStep, CreateStep, WriteStep, SyncFileStep, LinkStep,
         PublishStep, AbandonStep;
    NamesDisjoint(LOCK_NAME);
    assert {LOCK_NAME} - {LOCK_NAME} == {};
  }

  // ---- A call gets as far as the link ----

  lemma Calls(w: World, p: Pid, op: Op) returns (ws: seq<World>, ls: seq<Label>)
    requires At(w, p).Idle? && w.disk.dir.Keys == {LOCK_NAME} && w.clock <= op.now <= op.expiry && op.attempt == 0
    ensures Run(ws, ls) && ws[0] == w && At(ws[|ls|], p) == Create(op, 0)
    ensures ws[|ls|].disk == w.disk && ws[|ls|].log == w.log && ws[|ls|].capacity == w.capacity
  {
    hide Step;
    var w1 := Goto(w.(clock := op.now), p, w.disk, List(op));
    var w2 := Goto(w1, p, w.disk, Clean(op, {LOCK_NAME}, 0));
    var w3 := Goto(w2, p, w.disk, Clean(op, {}, 0));
    var w4 := Goto(w3, p, w.disk, Probe(op, 0));
    var w5 := Goto(w4, p, w.disk, Create(op, 0));
    CallSteps(w, p, op, w1, w2, w3, w4, w5);
    var go := Go(p, "", 0);
    ws, ls := [w, w1, w2, w3, w4, w5], [Call(p, op.key, op.expiry, op.now), go, Go(p, LOCK_NAME, 0), go, go];
    forall i | 0 <= i < |ls| ensures StepAt(ws, ls, i) {
    }
  }

  lemma CallSteps(w: World, p: Pid, op: Op, w1: World, w2: World, w3: World, w4: World, w5: World)
    requires At(w, p).Idle? && w.disk.dir.Keys == {LOCK_NAME} && w.clock <= op.now <= op.expiry && op.attempt == 0
    requires w1 == Goto(w.(clock := op.now), p, w.disk, List(op))
    requires w2 == Goto(w1, p, w.disk, Clean(op, {LOCK_NAME}, 0)) && w3 == Goto(w2, p, w.disk, Clean(op, {}, 0))
    requires w4 == Goto(w3, p, w.disk, Probe(op, 0)) && w5 == Goto(w4, p, w.disk, Create(op, 0))
    ensures Step(w, Call(p, op.key, op.expiry, op.now), w1) && Step(w1, Go(p, "", 0), w2)
    ensures Step(w2, Go(p, LOCK_NAME, 0), w3) && Step(w3, Go(p, "", 0), w4) && Step(w4, Go(p, "", 0), w5)
  {
    hide OpenStep, LockStep, StartupStep, EvictStep, CreateStep, WriteStep, SyncFileStep, LinkStep, PublishStep,
         AbandonStep;
    assert {LOCK_NAME} - {LOCK_NAME} == {};
    LockNameApart(NameFor(op.key));
  }

  lemma Links(w: World, p: Pid, op: Op, pending: string) returns (ws: seq<World>, ls: seq<Label>)
    requires At(w, p) == Create(op, 0) && w.capacity > 0 && IsPendingName(pending)
    requires w.disk.dir == map[LOCK_NAME := 0] && w.disk.inodes.Keys == {0}
    ensures Run(ws, ls) && ws[0] == w && At(ws[|ls|], p) == SyncLink(op, pending)
    ensures ws[|ls|].log == w.log && ws[|ls|].disk.dir.Keys == {LOCK_NAME, pending, NameFor(op.key)}
  {
    hide Step, MarkerText, At, NameFor, IsPendingName;
    var w1 := Creates(w, p, op, pending);
    var w2 := Writes(w1, p, op, pending);
    var w3 := Syncs(w2, p, op, pending);
    var w4 := Publishes(w3, p, op, pending);
    ws, ls := [w, w1, w2, w3, w4], [Go(p, pending, 1), Go(p, "", |MarkerText(op.expiry)|), Go(p, "", 0), Go(p, "", 0)];
    forall i | 0 <= i < |ls| ensures StepAt(ws, ls, i) {
    }
  }

  /** The pending file is there, and nothing was answered yet. */
  predicate Staging(w: World, w': World, pending: string) {
    w'.disk.dir.Keys == {LOCK_NAME, pending} && 1 in w'.disk.inodes && w'.log == w.log
  }

  lemma Creates(w: World, p: Pid, op: Op, pending: string) returns (w': World)
    requires At(w, p) == Create(op, 0) && w.capacity > 0 && IsPendingName(pending)
    requires w.disk.dir == map[LOCK_NAME := 0] && w.disk.inodes.Keys == {0}
    ensures Step(w, Go(p, pending, 1), w') && At(w', p) == Write(op, pending, 1, 0) && Staging(w, w', pending)
  {
    w' := Goto(w, p, Created(w.disk, pending, 1), Write(op, pending, 1, 0));
    LockNameApart(pending);
    assert CreateIo(w.disk, w'.disk, pending, 1, true);
  }

  lemma Writes(w: World, p: Pid, op: Op, pending: string) returns (w': World)
    requires At(w, p) == Write(op, pending, 1, 0) && Staging(w, w, pending)
    ensures Step(w, Go(p, "", |MarkerText(op.expiry)|), w') && At(w', p) == SyncFile(op, pending, 1)
            && Staging(w, w', pending)
  {
    hide MarkerText;
    var text := MarkerText(op.expiry);
    w' := Goto(w, p, Appended(w.disk, 1, text), SyncFile(op, pending, 1));
    assert text[0..0 + |text|] == text;
  }

  lemma Syncs(w: World, p: Pid, op: Op, pending: string) returns (w': World)
    requires At(w, p) == SyncFile(op, pending, 1) && Staging(w, w, pending)
    ensures Step(w, Go(p, "", 0), w') && At(w', p) == Link(op, pending, 1) && Staging(w, w', pending)
  {
    w' := Goto(w, p, FileSynced(w.disk, 1), Link(op, pending, 1));
  }

  lemma Publishes(w: World, p: Pid, op: Op, pending: string) returns (w': World)
    requires At(w, p) == Link(op, pending, 1) && Staging(w, w, pending) && IsPendingName(pending)
    ensures Step(w, Go(p, "", 0), w') && At(w', p) == SyncLink(op, pending) && w'.log == w.log
    ensures w'.disk.dir.Keys == {LOCK_NAME, pending, NameFor(op.key)}
  {
    w' := Goto(w, p, Linked(w.disk, pending, NameFor(op.key)), SyncLink(op, pending));
    PendingNotRecorded(pending, op.key);
    LockNameApart(NameFor(op.key));
    assert LinkIo(w.disk, w'.disk, pending, NameFor(op.key), true);
  }

  // ---- The sync fails, and the second attempt finds the marker ----

  /** When the first sync after the link fails, the second attempt finds the marker that the call itself linked.
      Here the directory holds only the lock file, the pending file and that marker. */
  lemma LostSync(w: World, p: Pid) returns (ws: seq<World>, ls: seq<Label>)
    requires Inv(w) && At(w, p).SyncLink? && At(w, p).op.attempt == 0 && 0 <= At(w, p).op.expiry
    requires w.disk.dir.Keys == {LOCK_NAME, At(w, p).pending, NameFor(At(w, p).op.key)}
    ensures Run(ws, ls) && ws[0] == w
    ensures var op := At(w, p).op; ws[|ls|].log == w.log + [Event(op.key, op.expiry, op.now, Replay)]
  {
    hide Inv, Step, Goto, Answer;
    var SyncLink(op, pending) := At(w, p);
    var own, d := NameFor(op.key), DirSynced(Removed(w.disk, pending));
    var again := op.(attempt := 1);
    AfterLink(w, p);
    var w1 := Goto(w, p, w.disk, ProbeFinal(op, pending));
    var w2 := Goto(w1, p, w.disk, DropPending(op, pending, true));
    var w3 := Goto(w2, p, Removed(w.disk, pending), DropSync(op, pending, true));
    var w4 := Goto(w3, p, d, List(again));
    var w5 := Goto(w4, p, d, Clean(again, {LOCK_NAME, own}, 0));
    var w6 := Goto(w5, p, d, Clean(again, {own}, 0));
    var w7 := Goto(w6, p, d, Clean(again, {}, 1));
    var w8 := Goto(w7, p, d, Probe(again, 1));
    var w9 := Answer(w8, p, d, again, Replay);
    GivesUp(w, p, w1, w2, w3, w4);
    SweepsAgain(w4, p, own, again, w5, w6, w7, w8);
    FindsItself(w8, p, again, w9);
    var go := Go(p, "", 0);
    ws, ls := [w, w1, w2, w3, w4, w5, w6, w7, w8, w9], [go, go, go, go, go, Go(p, LOCK_NAME, 0), Go(p, own, 0), go, go];
    forall i | 0 <= i < |ls| ensures StepAt(ws, ls, i) {
    }
  }

  lemma AfterLink(w: World, p: Pid)
    requires Inv(w) && At(w, p).SyncLink? && 0 <= At(w, p).op.expiry
    requires w.disk.dir.Keys == {LOCK_NAME, At(w, p).pending, NameFor(At(w, p).op.key)}
    ensures var SyncLink(op, pending) := At(w, p);
            var d, own := DirSynced(Removed(w.disk, pending)), NameFor(op.key);
            && own in w.disk.dir && pending in w.disk.dir && d.dir.Keys == {LOCK_NAME, own}
            && own != LOCK_NAME && ExpiryOf(d, own) == Some(op.expiry) && op.now <= op.expiry
  {
    assert OpInv(w, p);
    var op := At(w, p).op;
    PendingNotRecorded(At(w, p).pending, op.key);
    LockNameApart(NameFor(op.key));
    LockNameApart(At(w, p).pending);
    MarkerReads(op.expiry);
  }

  lemma GivesUp(w: World, p: Pid, w1: World, w2: World, w3: World, w4: World)
    requires At(w, p).SyncLink? && At(w, p).op.attempt == 0
    requires NameFor(At(w, p).op.key) in w.disk.dir && At(w, p).pending in w.disk.dir
    requires var SyncLink(op, pending) := At(w, p);
             && w1 == Goto(w, p, w.disk, ProbeFinal(op, pending))
             && w2 == Goto(w1, p, w.disk, DropPending(op, pending, true))
             && w3 == Goto(w2, p, Removed(w.disk, pending), DropSync(op, pending, true))
             && w4 == Goto(w3, p, DirSynced(Removed(w.disk, pending)), List(op.(attempt := 1)))
    ensures Step(w, Go(p, "", 0), w1) && Step(w1, Go(p, "", 0), w2) && Step(w2, Go(p, "", 0), w3)
            && Step(w3, Go(p, "", 0), w4)
    ensures w4.log == w.log && w4.disk == DirSynced(Removed(w.disk, At(w, p).pending))
            && At(w4, p) == List(At(w, p).op.(attempt := 1))
  {
    hide OpenStep, LockStep, StartupStep, CleanStep, ProbeStep, EvictStep, CreateStep, WriteStep, SyncFileStep,
         LinkStep, NameFor;
    assert SyncIo(w3.disk, w4.disk, true);
  }

  lemma SweepsAgain(w: World, p: Pid, own: string, op: Op, w1: World, w2: World, w3: World, w4: World)
    requires At(w, p) == List(op) && own == NameFor(op.key) && w.disk.dir.Keys == {LOCK_NAME, own} && own != LOCK_NAME
    requires ExpiryOf(w.disk, own) == Some(op.expiry) && op.now <= op.expiry
    requires var d := w.disk;
             && w1 == Goto(w, p, d, Clean(op, {LOCK_NAME, own}, 0)) && w2 == Goto(w1, p, d, Clean(op, {own}, 0))
             && w3 == Goto(w2, p, d, Clean(op, {}, 1)) && w4 == Goto(w3, p, d, Probe(op, 1))
    ensures Step(w, Go(p, "", 0), w1) && Step(w1, Go(p, LOCK_NAME, 0), w2) && Step(w2, Go(p, own, 0), w3)
    ensures Step(w3, Go(p, "", 0), w4) && w4.log == w.log && w4.disk == w.disk && At(w4, p) == Probe(op, 1)
  {
    hide OpenStep, LockStep, StartupStep, ProbeStep, EvictStep, CreateStep, WriteStep, SyncFileStep, LinkStep,
         PublishStep, AbandonStep, ExpiryOf;
    assert {LOCK_NAME, own} - {LOCK_NAME} == {own} && {own} - {own} == {};
  }

  lemma FindsItself(w: World, p: Pid, op: Op, w': World)
    requires At(w, p) == Probe(op, 1) && ExpiryOf(w.disk, NameFor(op.key)) == Some(op.expiry) && op.now <= op.expiry
    requires w' == Answer(w, p, w.disk, op, Replay)
    ensures Step(w, Go(p, "", 0), w') && w'.log == w.log + [Event(op.key, op.expiry, op.now, Replay)]
  {
  }

  // ---- The whole run ----

  /** A run goes on with another one. */
  lemma RunOn(ws: seq<World>, ls: seq<Label>, vs: seq<World>, ks: seq<Label>)
    requires Run(ws, ls) && Run(vs, ks) && ws[|ls|] == vs[0]
    ensures Run(ws + vs[1..], ls + ks) && (ws + vs[1..])[|ls + ks|] == vs[|ks|]
  {
    hide Step;
    var us, ms := ws + vs[1..], ls + ks;
    forall i | 0 <= i < |ms| ensures StepAt(us, ms, i) {
      if i < |ls| {
        assert StepAt(ws, ls, i);
      } else {
        assert StepAt(vs, ks, i - |ls|);
      }
    }
  }

  /** From an empty directory, for every key and every expiry that is not negative and not past: the very first call
      is answered `Replay`. */
  lemma FirstCallReplayed(p: Pid, clock: I64, capacity: nat, key: ReplayKey, expiry: I64, now: I64)
      returns (ws: seq<World>, ls: seq<Label>)
    requires capacity > 0 && clock <= now <= expiry && 0 <= expiry
    ensures Run(ws, ls) && Init(ws[0]) && ws[0] == Start(clock, capacity)
    ensures ws[|ls|].log == [Event(key, expiry, now, Replay)]
  {
    hide Step, Run, Init, Inv;
    var op, pending := Op(key, expiry, now, 0), PendingName(seq(16, _ => 0));
    ws, ls := Opens(p, clock, capacity);
    Goes(ws, ls);
    var vs, ks := Calls(ws[|ls|], p, op);
    Goes(vs, ks);
    RunOn(ws, ls, vs, ks);
    ws, ls := ws + vs[1..], ls + ks;
    vs, ks := Links(ws[|ls|], p, op, pending);
    Goes(vs, ks);
    RunOn(ws, ls, vs, ks);
    ws, ls := ws + vs[1..], ls + ks;
    StartsEmpty(clock, capacity);
    Goes(ws, ls);
    RunInv(ws, ls, |ls|);
    vs, ks := LostSync(ws[|ls|], p);
    Goes(vs, ks);
    RunOn(ws, ls, vs, ks);
    ws, ls := ws + vs[1..], ls + ks;
    Goes(ws, ls);
  }

  lemma Goes(ws: seq<World>, ls: seq<Label>)
    requires Run(ws, ls)
    ensures |ws| == |ls| + 1
  {
  }

  lemma StartsEmpty(clock: I64, capacity: nat)
    ensures Init(Start(clock, capacity))
  {
  }
}
