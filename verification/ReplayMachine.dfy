/** The file-backed replay store as a step machine: several processes, one directory, a kernel that
    writes back when it likes, I/O that fails at any step, kills and power losses
    (crates/keylix-verifier/src/replay.rs, lines 45 to 313). */
module ReplayMachine {
  import opened Text
  import opened ReplayLog
  import opened MarkerFiles

  // ---- The directory ----

  /** A file: its bytes as the kernel sees them and as they would survive a power loss. */
  datatype Inode = Inode(data: string, stable: string)

  /** A directory: its entries as the kernel sees them and as they would survive a power loss. */
  datatype Disk = Disk(dir: map<string, nat>, durable: map<string, nat>, inodes: map<nat, Inode>)

  predicate Holds(d: Disk, name: string) {
    name in d.dir && d.dir[name] in d.inodes
  }

  function Content(d: Disk, name: string): string
    requires Holds(d, name)
  {
    d.inodes[d.dir[name]].data
  }

  function Created(d: Disk, name: string, ino: nat): Disk {
    d.(dir := d.dir[name := ino], inodes := d.inodes[ino := Inode("", "")])
  }

  function Removed(d: Disk, name: string): Disk {
    d.(dir := d.dir - {name})
  }

  function Appended(d: Disk, ino: nat, bytes: string): Disk
    requires ino in d.inodes
  {
    d.(inodes := d.inodes[ino := d.inodes[ino].(data := d.inodes[ino].data + bytes)])
  }

  function FileSynced(d: Disk, ino: nat): Disk
    requires ino in d.inodes
  {
    d.(inodes := d.inodes[ino := d.inodes[ino].(stable := d.inodes[ino].data)])
  }

  function Linked(d: Disk, existing: string, name: string): Disk
    requires existing in d.dir
  {
    d.(dir := d.dir[name := d.dir[existing]])
  }

  function DirSynced(d: Disk): Disk {
    d.(durable := d.dir)
  }

  /** The kernel writes one directory entry back on its own. */
  function Flushed(d: Disk, name: string): Disk {
    d.(durable := if name in d.dir then d.durable[name := d.dir[name]] else d.durable - {name})
  }

  /** The kernel writes a dirty file back on its own, in any torn state. */
  function WrittenBack(d: Disk, ino: nat, bytes: string): Disk {
    if ino in d.inodes && d.inodes[ino].data != d.inodes[ino].stable
    then d.(inodes := d.inodes[ino := d.inodes[ino].(stable := bytes)]) else d
  }

  function Survivor(d: Disk): Disk {
    Disk(d.durable, d.durable, map i | i in d.inodes :: Inode(d.inodes[i].stable, d.inodes[i].stable))
  }

  // Outcomes of the calls that change the directory. A call that reports failure may or may not
  // have taken effect.

  predicate RemoveIo(d: Disk, d': Disk, name: string, ok: bool) {
    if name !in d.dir then !ok && d' == d
    else if ok then d' == Removed(d, name)
    else d' == d || d' == Removed(d, name)
  }

  predicate LinkIo(d: Disk, d': Disk, existing: string, name: string, ok: bool) {
    if existing !in d.dir || name in d.dir then !ok && d' == d
    else if ok then d' == Linked(d, existing, name)
    else d' == d || d' == Linked(d, existing, name)
  }

  predicate CreateIo(d: Disk, d': Disk, name: string, ino: nat, ok: bool) {
    if name in d.dir || ino in d.inodes then !ok && d' == d
    else if ok then d' == Created(d, name, ino)
    else d' == d || d' == Created(d, name, ino)
  }

  predicate SyncIo(d: Disk, d': Disk, ok: bool) {
    d' == if ok then DirSynced(d) else d
  }

  // ---- Processes ----

  type Pid = nat

  /** One `check_and_record` call after its clock reading. */
  datatype Op = Op(key: ReplayKey, expiry: I64, now: I64, attempt: nat)

  /** Where a process is. Down to Idle is `new`; List to DropSync is one round of
      `check_and_record`. */
  datatype Phase =
    | Down
    | Handle(ino: nat)
    | Locked
    | Scavenge(todo: set<string>, removed: bool)
    | ScavengeSync
    | Idle
    | List(op: Op)
    | Clean(op: Op, todo: set<string>, active: nat)
    | Probe(op: Op, active: nat)
    | Evict(op: Op, active: nat)
    | Create(op: Op, active: nat)
    | Write(op: Op, pending: string, ino: nat, written: nat)
    | SyncFile(op: Op, pending: string, ino: nat)
    | Link(op: Op, pending: string, ino: nat)
    | SyncLink(op: Op, pending: string)
    | Unlink(op: Op, pending: string)
    | SyncUnlink(op: Op, pending: string)
    | ProbeFinal(op: Op, pending: string)
    | DropPending(op: Op, pending: string, found: bool)
    | DropSync(op: Op, pending: string, found: bool)
  {
    /** The process holds the instance lock. */
    predicate Live() { !Down? && !Handle? }

    /** The process is inside `check_and_record`. */
    predicate Busy() { Live() && !Locked? && !Scavenge? && !ScavengeSync? && !Idle? }
  }

  datatype World = World(
    disk: Disk,
    locks: map<nat, Pid>,
    procs: map<Pid, Phase>,
    floor: I64,
    clock: I64,
    capacity: nat,
    log: seq<Event>)

  function At(w: World, p: Pid): Phase {
    if p in w.procs then w.procs[p] else Down
  }

  function Goto(w: World, p: Pid, d: Disk, phase: Phase): World {
    w.(disk := d, procs := w.procs[p := phase])
  }

  /** The call returns and the store waits for the next one. */
  function Answer(w: World, p: Pid, d: Disk, op: Op, status: Status): World {
    Goto(w, p, d, Idle).(log := w.log + [Event(op.key, op.expiry, op.now, status)])
  }

  /** The process or its store goes away: its file descriptors close and its lock is released. */
  function Gone(w: World, p: Pid, d: Disk): World {
    Goto(w, p, d, Down).(locks := map i | i in w.locks && w.locks[i] != p :: w.locks[i])
  }

  function PowerLost(w: World): World {
    w.(disk := Survivor(w.disk), locks := map[], procs := map p | p in w.procs :: Down)
  }

  // ---- Steps ----

  /** What happens next. `name` and `ino` resolve the step's free choices. */
  datatype Label =
    | Flush(name: string)
    | WriteBack(ino: nat, bytes: string)
    | PowerLoss
    | Kill(pid: Pid)
    | Call(pid: Pid, key: ReplayKey, expiry: I64, now: I64)
    | Go(pid: Pid, name: string, ino: nat)

  predicate Step(w: World, l: Label, w': World) {
    match l
    case Flush(name) => w' == w.(disk := Flushed(w.disk, name))
    case WriteBack(ino, bytes) => w' == w.(disk := WrittenBack(w.disk, ino, bytes))
    case PowerLoss => w' == PowerLost(w)
    case Kill(p) => w' == Gone(w, p, w.disk)
    case Call(p, key, expiry, now) => CallStep(w, p, Op(key, expiry, now, 0), w')
    case Go(p, name, ino) => GoStep(w, p, name, ino, w')
  }

  /** A process does what its phase says. */
  predicate GoStep(w: World, p: Pid, name: string, ino: nat, w': World) {
    match At(w, p)
    case Down => OpenStep(w, p, ino, w')
    case Handle(_) => LockStep(w, p, w')
    case Locked | Scavenge(_, _) | ScavengeSync => StartupStep(w, p, name, w')
    case Idle => false
    case List(_) | Clean(_, _, _) => CleanStep(w, p, name, w')
    case Probe(_, _) => ProbeStep(w, p, w')
    case Evict(_, _) => EvictStep(w, p, w')
    case Create(_, _) => CreateStep(w, p, name, ino, w')
    case Write(_, _, _, _) => WriteStep(w, p, ino, w')
    case SyncFile(_, _, _) => SyncFileStep(w, p, w')
    case Link(_, _, _) => LinkStep(w, p, w')
    case SyncLink(_, _) | Unlink(_, _) | SyncUnlink(_, _) => PublishStep(w, p, w')
    case ProbeFinal(_, _) | DropPending(_, _, _) | DropSync(_, _, _) => AbandonStep(w, p, w')
  }

  /** The call takes the operation lock and reads the clock, which never runs backwards there. */
  predicate CallStep(w: World, p: Pid, op: Op, w': World) {
    && At(w, p).Idle? && w.clock <= op.now
    && var v := w.(clock := op.now);
       w' == if op.expiry < op.now then Answer(v, p, v.disk, op, Failed) else Goto(v, p, v.disk, List(op))
  }

  /** `acquire_instance_lock`: create the lock file or open the one that exists. */
  predicate OpenStep(w: World, p: Pid, ino: nat, w': World) {
    || (LOCK_NAME in w.disk.dir && w' == Goto(w, p, w.disk, Handle(w.disk.dir[LOCK_NAME])))
    || (CreateIo(w.disk, w'.disk, LOCK_NAME, ino, true) && w' == Goto(w, p, w'.disk, Handle(ino)))
    || (CreateIo(w.disk, w'.disk, LOCK_NAME, ino, false) && w' == Goto(w, p, w'.disk, Down))
  }

  /** `try_lock_exclusive` on the opened file. */
  predicate LockStep(w: World, p: Pid, w': World)
    requires At(w, p).Handle?
  {
    var ino := At(w, p).ino;
    || (ino !in w.locks && w' == Goto(w, p, w.disk, Locked).(locks := w.locks[ino := p]))
    || w' == Goto(w, p, w.disk, Down)
  }

  /** `cleanup_startup_pending`; any failure makes `new` fail. */
  predicate StartupStep(w: World, p: Pid, name: string, w': World) {
    var d, d' := w.disk, w'.disk;
    match At(w, p)
    case Locked => w' == Goto(w, p, d, Scavenge(d.dir.Keys, false)) || w' == Gone(w, p, d)
    case Scavenge(todo, removed) =>
      if todo == {} then w' == Goto(w, p, d, if removed then ScavengeSync else Idle)
      else
        && name in todo
        && if IsPendingName(name)
           then || (RemoveIo(d, d', name, true) && w' == Goto(w, p, d', Scavenge(todo - {name}, true)))
                || (RemoveIo(d, d', name, false) && w' == Gone(w, p, d'))
           else w' == Goto(w, p, d, Scavenge(todo - {name}, removed))
    case ScavengeSync =>
      || (SyncIo(d, d', true) && w' == Goto(w, p, d', Idle))
      || w' == Gone(w, p, d)
    case _ => false
  }

  /** The expiry that `read_expiry` finds under a name, when it finds one. */
  function ExpiryOf(d: Disk, name: string): Option<I64> {
    if Holds(d, name) then ParseExpiry(Content(d, name)) else None
  }

  /** `cleanup_and_count`. */
  predicate CleanStep(w: World, p: Pid, name: string, w': World) {
    var d, d' := w.disk, w'.disk;
    match At(w, p)
    case List(op) => w' == Goto(w, p, d, Clean(op, d.dir.Keys, 0)) || w' == Answer(w, p, d, op, Failed)
    case Clean(op, todo, active) =>
      if todo == {} then w' == Goto(w, p, d, Probe(op, active))
      else
        && name in todo
        && var on := Clean(op, todo - {name}, active);
           || w' == Answer(w, p, d, op, Failed)
           || ((IsPendingName(name) || name == LOCK_NAME) && w' == Goto(w, p, d, on))
           || (IsMarkerName(name) && ExpiryOf(d, name).Some?
               && if ExpiryOf(d, name).value < op.now
                  then || (RemoveIo(d, d', name, true) && w' == Goto(w, p, d', on))
                       || (RemoveIo(d, d', name, false) && w' == Answer(w, p, d', op, Failed))
                  else w' == Goto(w, p, d, Clean(op, todo - {name}, active + 1)))
    case _ => false
  }

  /** Reading the key's own marker. */
  predicate ProbeStep(w: World, p: Pid, w': World)
    requires At(w, p).Probe?
  {
    var d, Probe(op, active) := w.disk, At(w, p);
    var own := NameFor(op.key);
    || w' == Answer(w, p, d, op, Failed)
    || (own !in d.dir && w' == Goto(w, p, d, Create(op, active)))
    || (ExpiryOf(d, own).Some?
        && w' == if ExpiryOf(d, own).value >= op.now then Answer(w, p, d, op, Replay)
                 else Goto(w, p, d, Evict(op, active)))
  }

  /** Removing the key's own expired marker. */
  predicate EvictStep(w: World, p: Pid, w': World)
    requires At(w, p).Evict?
  {
    var d, d', Evict(op, active) := w.disk, w'.disk, At(w, p);
    || (RemoveIo(d, d', NameFor(op.key), true) && w' == Goto(w, p, d', Create(op, active)))
    || (RemoveIo(d, d', NameFor(op.key), false) && w' == Answer(w, p, d', op, Failed))
  }

  /** Creating the pending file if there is room. */
  predicate CreateStep(w: World, p: Pid, name: string, ino: nat, w': World)
    requires At(w, p).Create?
  {
    var d, d', Create(op, active) := w.disk, w'.disk, At(w, p);
    || w' == Answer(w, p, d, op, Failed)
    || (active < w.capacity && IsPendingName(name)
        && (|| (CreateIo(d, d', name, ino, true) && w' == Goto(w, p, d', Write(op, name, ino, 0)))
            || (name in d.dir && op.attempt == 0 && w' == Goto(w, p, d, List(op.(attempt := 1))))
            || (CreateIo(d, d', name, ino, false) && w' == Answer(w, p, d', op, Failed))))
  }

  /** One write of `count` bytes to the pending file. */
  predicate WriteStep(w: World, p: Pid, count: nat, w': World)
    requires At(w, p).Write?
  {
    var d, Write(op, pending, ino, written) := w.disk, At(w, p);
    var text := MarkerText(op.expiry);
    || w' == Goto(w, p, d, ProbeFinal(op, pending))
    || (1 <= count <= |text| - written && ino in d.inodes
        && w' == Goto(w, p, Appended(d, ino, text[written..written + count]),
                      if written + count < |text| then Write(op, pending, ino, written + count)
                      else SyncFile(op, pending, ino)))
  }

  /** Syncing the pending file. */
  predicate SyncFileStep(w: World, p: Pid, w': World)
    requires At(w, p).SyncFile?
  {
    var d, SyncFile(op, pending, ino) := w.disk, At(w, p);
    || w' == Goto(w, p, d, ProbeFinal(op, pending))
    || (ino in d.inodes && w' == Goto(w, p, FileSynced(d, ino), Link(op, pending, ino)))
  }

  /** Linking the pending file under the marker name. */
  predicate LinkStep(w: World, p: Pid, w': World)
    requires At(w, p).Link?
  {
    var d, d', Link(op, pending, _) := w.disk, w'.disk, At(w, p);
    || (LinkIo(d, d', pending, NameFor(op.key), true) && w' == Goto(w, p, d', SyncLink(op, pending)))
    || (LinkIo(d, d', pending, NameFor(op.key), false) && w' == Goto(w, p, d', ProbeFinal(op, pending)))
  }

  /** Syncing the link, unlinking the pending name, syncing again and answering `Fresh`. */
  predicate PublishStep(w: World, p: Pid, w': World) {
    var d, d' := w.disk, w'.disk;
    match At(w, p)
    case SyncLink(op, pending) =>
      || (SyncIo(d, d', true) && w' == Goto(w, p, d', Unlink(op, pending)))
      || w' == Goto(w, p, d, ProbeFinal(op, pending))
    case Unlink(op, pending) =>
      || (RemoveIo(d, d', pending, true) && w' == Goto(w, p, d', SyncUnlink(op, pending)))
      || (RemoveIo(d, d', pending, false) && w' == Goto(w, p, d', ProbeFinal(op, pending)))
    case SyncUnlink(op, pending) =>
      || (SyncIo(d, d', true) && w' == Answer(w, p, d', op, Fresh))
      || w' == Goto(w, p, d, ProbeFinal(op, pending))
    case _ => false
  }

  /** After a failed publication: look for the marker, drop the pending file, retry once. */
  predicate AbandonStep(w: World, p: Pid, w': World) {
    var d, d' := w.disk, w'.disk;
    match At(w, p)
    case ProbeFinal(op, pending) =>
      || (NameFor(op.key) in d.dir && w' == Goto(w, p, d, DropPending(op, pending, true)))
      || w' == Goto(w, p, d, DropPending(op, pending, false))
    case DropPending(op, pending, found) =>
      || (RemoveIo(d, d', pending, true) && w' == Goto(w, p, d', DropSync(op, pending, found)))
      || (RemoveIo(d, d', pending, false) && w' == Goto(w, p, d', DropSync(op, pending, found)))
    case DropSync(op, pending, found) =>
      exists ok :: SyncIo(d, d', ok)
                   && w' == if found && op.attempt == 0 then Goto(w, p, d', List(op.(attempt := 1)))
                            else Answer(w, p, d', op, Failed)
    case _ => false
  }

  /** A run, with the labels of its steps. */
  predicate Run(ws: seq<World>, ls: seq<Label>) {
    && |ws| == |ls| + 1
    && forall i {:trigger StepAt(ws, ls, i)} :: 0 <= i < |ls| ==> StepAt(ws, ls, i)
  }

  predicate StepAt(ws: seq<World>, ls: seq<Label>, i: nat)
    requires |ws| == |ls| + 1 && i < |ls|
  {
    Step(ws[i], ls[i], ws[i + 1])
  }

  /** A run goes on with one more step. */
  lemma RunSnoc(ws: seq<World>, ls: seq<Label>, l: Label, w': World)
    requires Run(ws, ls) && Step(ws[|ls|], l, w')
    ensures Run(ws + [w'], ls + [l])
  {
    forall i | 0 <= i < |ls| + 1
      ensures StepAt(ws + [w'], ls + [l], i)
    {
      if i < |ls| {
        assert StepAt(ws, ls, i);
      }
    }
  }

  /** Nobody runs, nothing was answered, and any files are complete markers of earlier lives. */
  ghost predicate Init(w: World) {
    && w.locks == map[] && w.procs == map[] && w.log == [] && w.floor <= w.clock
    && w.disk.dir == w.disk.durable
    && forall n :: n in w.disk.dir ==>
         w.disk.dir[n] in w.disk.inodes && (IsMarkerName(n) ==> Sealed(w.disk, w.disk.dir[n], w.floor))
  }

  /** A file whose bytes are a complete marker and would survive a power loss. */
  ghost predicate Sealed(d: Disk, ino: nat, floor: I64) {
    && ino in d.inodes && d.inodes[ino].data == d.inodes[ino].stable
    && exists e: I64 :: floor <= e && d.inodes[ino].data == MarkerText(e)
  }
}
