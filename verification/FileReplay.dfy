/** The file-backed store as code: `new` and `check_and_record` over a directory whose calls fail and
    whose contents reach the platter as an outside schedule decides
    (crates/keylix-verifier/src/replay.rs, lines 45 to 313). Every directory call is one step of the
    replay machine, so the safety of its runs is the safety of this code; without faults the code
    answers like the in-memory store. */
module FileReplay {
  import opened Text
  import opened ReplayLog
  import opened MarkerFiles
  import opened ReplayMachine
  import opened CrashSafety
  import Memory = MemoryReplay

  /** How a directory call ends: as it should, with an error and no effect, or with an error after
      its effect. */
  datatype Fault = Works | Fails | FailsLate

  /** Write-back that the kernel does on its own. */
  datatype Noise = Entry(name: string) | Bytes(ino: nat, bytes: string)

  /** What the outside decides for one directory call: write-back before it, its outcome, the inode
      number of a new file, the length of a short write and the random bytes of a name. */
  datatype Io = Io(noise: seq<Noise>, fault: Fault, ino: nat, count: nat, random: Random)

  type Random = r: seq<Byte> | |r| == 16 witness seq(16, _ => 0)

  /** The first number from `hint` on that is not in use. */
  method UnusedNumber(hint: nat, used: set<nat>) returns (n: nat)
    ensures n !in used
  {
    n := hint;
    ghost var passed: set<nat> := {};
    while n in used
      invariant hint <= n && passed <= used && |passed| == n - hint
      invariant forall i :: i in passed ==> i < n
      decreases |used - passed|
    {
      ghost var before := used - passed;
      passed := passed + {n};
      assert used - passed == before - {n};
      n := n + 1;
    }
  }

  /** Names and bytes, without the distinction between kernel and platter. */
  function View(d: Disk): map<string, string> {
    map n | n in d.dir && d.dir[n] in d.inodes :: d.inodes[d.dir[n]].data
  }

  predicate SameBytes(d: Disk, d': Disk) {
    && d'.dir == d.dir && d'.inodes.Keys == d.inodes.Keys
    && forall i :: i in d.inodes ==> d'.inodes[i].data == d.inodes[i].data
  }

  /** The machine did not move but for write-back: same phases, same answers, same entries. */
  predicate Unmoved(w: World, w': World) {
    w' == w.(disk := w'.disk) && w'.disk.dir == w.disk.dir
  }

  /** Nothing changed but what would survive a power loss. */
  predicate SameView(w: World, w': World) {
    w' == w.(disk := w'.disk) && SameBytes(w.disk, w'.disk)
  }

  // ---- What the calls mean on names and bytes ----

  predicate Expired(text: string, now: I64) {
    ParseExpiry(text).Some? && ParseExpiry(text).value < now
  }

  function Swept(v: map<string, string>, now: I64): map<string, string> {
    map n | n in v && !(IsMarkerName(n) && Expired(v[n], now)) :: v[n]
  }

  function ActiveNames(v: map<string, string>, now: I64): set<string> {
    set n | n in v && IsMarkerName(n) && !Expired(v[n], now)
  }

  /** Only the lock file, pending files and readable markers. */
  predicate Orderly(v: map<string, string>) {
    forall n :: n in v ==> Known(n, v[n])
  }

  predicate Known(name: string, text: string) {
    name == LOCK_NAME || IsPendingName(name) || (IsMarkerName(name) && ParseExpiry(text).Some?)
  }

  /** Strange files and unreadable markers stay as they are. */
  predicate KeepsStrange(v: map<string, string>, v': map<string, string>) {
    forall n :: n in v && !Known(n, v[n]) ==> n in v' && v'[n] == v[n]
  }

  predicate NoPending(v: map<string, string>) {
    forall n :: n in v ==> !IsPendingName(n)
  }

  function AnswerOn(v: map<string, string>, capacity: nat, op: Op): Status {
    if op.expiry < op.now then Failed
    else if NameFor(op.key) in Swept(v, op.now) then Replay
    else if |ActiveNames(v, op.now)| >= capacity then Failed
    else Fresh
  }

  function NextOn(v: map<string, string>, capacity: nat, op: Op): map<string, string> {
    if op.expiry < op.now then v
    else if AnswerOn(v, capacity, op).Fresh? then Swept(v, op.now)[NameFor(op.key) := MarkerText(op.expiry)]
    else Swept(v, op.now)
  }

  /** Nobody holds the lock of the directory. */
  predicate LockFree(d: Disk, locks: map<nat, Pid>) {
    LOCK_NAME in d.dir ==> d.dir[LOCK_NAME] !in locks
  }

  /** What a call without failed directory calls makes of a directory in order: the answer and the files that the
      names and bytes dictate; only where pending files are left over and the random names of both attempts were
      taken does it fail instead of publishing. */
  predicate Settles(v: map<string, string>, capacity: nat, op: Op, taken: bool, status: Status, v': map<string,
                    string>) {
    || (status == AnswerOn(v, capacity, op) && v' == NextOn(v, capacity, op))
    || (taken && NameTaken(v, capacity, op) && status == Failed && v' == Swept(v, op.now))
  }

  predicate NameTaken(v: map<string, string>, capacity: nat, op: Op) {
    !NoPending(v) && AnswerOn(v, capacity, op).Fresh?
  }

  class Store {
    const pid: Pid
    const capacity: nat
    const io: nat -> Io
    var disk: Disk
    var locks: map<nat, Pid>
    var tick: nat

    /** The run of the machine so far. */
    ghost var world: World
    ghost var worlds: seq<World>
    ghost var labels: seq<Label>

    /** The outside lets every directory call from the one tick to the other succeed. */
    predicate Smooth(from: nat, to: nat) {
      forall i {:trigger io(i)} :: from <= i < to ==> io(i).fault.Works?
    }

    /** A random name drawn between the two ticks was taken. */
    predicate Collides(v: map<string, string>, from: nat, to: nat) {
      exists i {:trigger io(i)} :: from <= i < to && PendingName(io(i).random) in v
    }

    lemma SmoothParts(from: nat, middle: nat, to: nat)
      requires from <= middle <= to
      ensures Smooth(from, to) ==> Smooth(from, middle) && Smooth(middle, to)
    {
    }

    /** Two random names drawn between the two ticks were taken. */
    predicate CollidesTwice(v: map<string, string>, from: nat, to: nat) {
      exists i, j {:trigger io(i), io(j)} ::
        from <= i < j < to && PendingName(io(i).random) in v && PendingName(io(j).random) in v
    }

    lemma CollidesAgain(u: map<string, string>, v: map<string, string>, from: nat, middle: nat, to: nat)
      requires from <= middle <= to && u.Keys <= v.Keys && Collides(v, from, middle)
      ensures Collides(u, middle, to) ==> CollidesTwice(v, from, to)
    {
      if Collides(u, middle, to) {
        var i :| from <= i < middle && PendingName(io(i).random) in v;
        var j :| middle <= j < to && PendingName(io(j).random) in u;
        assert PendingName(io(i).random) in v && PendingName(io(j).random) in v;
      }
    }

    lemma CollidesWithin(u: map<string, string>, v: map<string, string>, from: nat, first: nat, last: nat, to: nat)
      requires from <= first <= last <= to && u.Keys <= v.Keys
      ensures Collides(u, first, last) ==> Collides(v, from, to)
    {
      if Collides(u, first, last) {
        var i :| first <= i < last && PendingName(io(i).random) in u;
        assert PendingName(io(i).random) in v;
      }
    }

    ghost predicate Tracked()
      reads this
    {
      && Run(worlds, labels) && Init(worlds[0]) && worlds[|labels|] == world
      && world.capacity == capacity && world.locks == locks
    }

    ghost predicate Valid()
      reads this
    {
      Tracked() && world.disk == disk
    }

    /** The store is about to do what `phase` says. */
    ghost predicate Ready(phase: Phase)
      reads this
    {
      Valid() && At(world, pid) == phase
    }

    /** The call answered and the clock stands where it read it. */
    ghost predicate Extends(log: seq<Event>, op: Op, status: Status)
      reads this
    {
      world.log == log + [Event(op.key, op.expiry, op.now, status)] && world.clock == op.now
    }

    constructor (pid: Pid, capacity: nat, io: nat -> Io, disk: Disk, locks: map<nat, Pid>,
                 ghost ws: seq<World>, ghost ls: seq<Label>)
      requires Run(ws, ls) && Init(ws[0]) && ws[|ls|].disk == disk && ws[|ls|].locks == locks
               && ws[|ls|].capacity == capacity
      requires At(ws[|ls|], pid).Down?
      ensures Ready(Down) && world == ws[|ls|] && this.pid == pid && this.capacity == capacity
    {
      this.pid, this.capacity, this.io := pid, capacity, io;
      this.disk, this.locks, this.tick := disk, locks, 0;
      world, worlds, labels := ws[|ls|], ws, ls;
    }

    /** The machine takes the step that the code just took. */
    ghost method Take(l: Label, w': World)
      requires Run(worlds, labels) && Init(worlds[0]) && worlds[|labels|] == world
      requires Step(world, l, w') && w'.capacity == capacity && w'.locks == locks
      modifies this`world, this`worlds, this`labels
      ensures Tracked() && world == w'
    {
      RunSnoc(worlds, labels, l, w');
      worlds, labels, world := worlds + [w'], labels + [l], w';
    }

    lemma Kept()
      requires Tracked()
      ensures Inv(world)
    {
      RunInv(worlds, labels, |labels|);
    }

    lemma EntriesHaveFiles()
      requires Valid()
      ensures forall n :: n in disk.dir ==> disk.dir[n] in disk.inodes
    {
      Kept();
    }

    lemma ViewKeys()
      requires Valid()
      ensures View(disk).Keys == disk.dir.Keys
    {
      Kept();
    }

    // ---- Directory calls ----

    /** The kernel's own write-back, then the outcome of the call that follows. */
    method Kernel() returns (k: Io)
      requires Valid()
      modifies this
      ensures Valid() && SameView(old(world), world) && View(disk) == old(View(disk))
      ensures k == io(old(tick)) && tick == old(tick) + 1
    {
      k := io(tick);
      tick := tick + 1;
      for i := 0 to |k.noise|
        invariant Valid() && SameView(old(world), world)
        invariant View(disk) == old(View(disk))
        invariant tick == old(tick) + 1
      {
        Drift(k.noise[i]);
      }
    }

    method Drift(noise: Noise)
      requires Valid()
      modifies this`disk, this`world, this`worlds, this`labels
      ensures Valid() && SameView(old(world), world) && View(disk) == old(View(disk))
    {
      match noise
      case Entry(name) =>
        disk := Flushed(disk, name);
        Take(Flush(name), world.(disk := disk));
      case Bytes(ino, bytes) =>
        disk := WrittenBack(disk, ino, bytes);
        Take(WriteBack(ino, bytes), world.(disk := disk));
    }

    method RemoveFile(name: string) returns (ok: bool)
      requires Valid()
      modifies this
      ensures Tracked() && Unmoved(old(world), world) && RemoveIo(world.disk, disk, name, ok)
      ensures View(world.disk) == old(View(disk))
      ensures ok ==> View(disk) == old(View(disk)) - {name}
      ensures !ok ==> View(disk) == old(View(disk)) || View(disk) == old(View(disk)) - {name}
      ensures tick == old(tick) + 1 && (io(old(tick)).fault.Works? ==> View(disk) == old(View(disk)) - {name})
      ensures Smooth(old(tick), tick) ==> ok || name !in world.disk.dir
    {
      hide Init, Run, View;
      var k := Kernel();
      RemovedView(disk, name);
      ViewKeys();
      if name !in disk.dir {
        assert View(disk) - {name} == View(disk);
        return false;
      }
      if !k.fault.Fails? {
        disk := Removed(disk, name);
      }
      return k.fault.Works?;
    }

    method SyncAll() returns (ok: bool)
      requires Valid()
      modifies this
      ensures Tracked() && Unmoved(old(world), world) && SyncIo(world.disk, disk, ok)
      ensures View(disk) == old(View(disk)) && disk.dir == old(disk.dir)
      ensures tick == old(tick) + 1 && (ok <==> io(old(tick)).fault.Works?)
    {
      var k := Kernel();
      if k.fault.Works? {
        disk := DirSynced(disk);
      }
      return k.fault.Works?;
    }

    method HardLink(existing: string, name: string) returns (ok: bool)
      requires Valid()
      modifies this
      ensures Tracked() && Unmoved(old(world), world) && LinkIo(world.disk, disk, existing, name, ok)
      ensures ok && existing in old(View(disk)) ==> View(disk) == old(View(disk))[name := old(View(disk))[existing]]
      ensures old(tick) <= tick
              && (Smooth(old(tick), tick) ==> (ok || existing !in old(View(disk)) || name in old(View(disk))))
    {
      hide Init, Run;
      var k := Kernel();
      ViewKeys();
      if existing !in disk.dir || name in disk.dir {
        return false;
      }
      if !k.fault.Fails? {
        disk := Linked(disk, existing, name);
      }
      return k.fault.Works?;
    }

    /** `new_file`: the inode of the new file, or whether the name was taken. The kernel never hands out an inode
        number that is in use or has a lock on it. */
    method NewFile(name: string) returns (ino: Option<nat>, taken: bool, ghost tried: nat)
      requires Valid()
      modifies this
      ensures Tracked() && Unmoved(old(world), world) && CreateIo(world.disk, disk, name, tried, ino.Some?)
      ensures ino.Some? ==>
              View(disk) == old(View(disk))[name := ""] && name !in old(View(disk)) && Sole(disk, name, tried)
      ensures ino.Some? ==> ino.value == tried
      ensures taken ==>
                && name in world.disk.dir && name in old(View(disk)) && disk == world.disk && ino.None?
                && View(disk) == old(View(disk))
      ensures ino.Some? ==> tried !in locks
      ensures old(tick) <= tick && (Smooth(old(tick), tick) ==> (ino.Some? || taken))
    {
      hide Init, Run, View, Sole;
      var k := Kernel();
      EntriesHaveFiles();
      ViewKeys();
      var number := UnusedNumber(k.ino, disk.inodes.Keys + locks.Keys);
      tried := number;
      if name in disk.dir {
        return None, k.fault.Works?, tried;
      }
      CreatedView(disk, name, number);
      if !k.fault.Fails? {
        disk := Created(disk, name, number);
      }
      return if k.fault.Works? then Some(number) else None, false, tried;
    }

    method ReadExpiry(name: string) returns (expiry: Option<I64>)
      requires Valid()
      modifies this
      ensures Valid() && Unmoved(old(world), world) && View(disk) == old(View(disk))
      ensures expiry.Some? ==> expiry == ExpiryOf(disk, name)
      ensures old(tick) <= tick && (Smooth(old(tick), tick) ==> expiry == ExpiryOf(disk, name))
    {
      var k := Kernel();
      return if k.fault.Works? then ExpiryOf(disk, name) else None;
    }

    /** Whether a name is there; None when the kernel could not tell. */
    method Metadata(name: string) returns (present: Option<bool>)
      requires Valid()
      modifies this
      ensures Valid() && Unmoved(old(world), world) && View(disk) == old(View(disk))
      ensures present.Some? ==> present.value == (name in disk.dir) == (name in View(disk))
      ensures tick == old(tick) + 1 && (present.Some? <==> io(old(tick)).fault.Works?)
    {
      var k := Kernel();
      ViewKeys();
      return if k.fault.Works? then Some(name in disk.dir) else None;
    }

    method ListNames() returns (names: Option<set<string>>)
      requires Valid()
      modifies this
      ensures Valid() && Unmoved(old(world), world) && View(disk) == old(View(disk))
      ensures names.Some? ==> names.value == disk.dir.Keys == View(disk).Keys
      ensures old(tick) <= tick && (Smooth(old(tick), tick) ==> names.Some?)
    {
      var k := Kernel();
      ViewKeys();
      return if k.fault.Works? then Some(disk.dir.Keys) else None;
    }

    // ---- `new` ----

    /** The machine goes on after the code did what `phase` of the machine says. */
    ghost method Advance(name: string, ino: nat, phase: Phase)
      requires Tracked() && GoStep(world, pid, name, ino, Goto(world, pid, disk, phase))
      modifies this`world, this`worlds, this`labels
      ensures Ready(phase) && world == Goto(old(world), pid, disk, phase)
    {
      Take(Go(pid, name, ino), Goto(world, pid, disk, phase));
    }

    ghost method Return(name: string, ino: nat, op: Op, status: Status)
      requires Tracked() && GoStep(world, pid, name, ino, Answer(world, pid, disk, op, status))
      requires At(world, pid).Busy() && At(world, pid).op == op
      modifies this`world, this`worlds, this`labels
      ensures Ready(Idle) && Extends(old(world.log), op, status)
    {
      Kept();
      assert OpInv(world, pid);
      Take(Go(pid, name, ino), Answer(world, pid, disk, op, status));
    }

    // One group of phases at a time.

    ghost method StartupAdvance(name: string, phase: Phase)
      requires Tracked() && (At(world, pid).Locked? || At(world, pid).Scavenge? || At(world, pid).ScavengeSync?)
      requires StartupStep(world, pid, name, Goto(world, pid, disk, phase))
      modifies this`world, this`worlds, this`labels
      ensures Ready(phase) && world == Goto(old(world), pid, disk, phase)
    {
      Advance(name, 0, phase);
    }

    ghost method CleanAdvance(name: string, phase: Phase)
      requires Tracked() && (At(world, pid).List? || At(world, pid).Clean?)
      requires CleanStep(world, pid, name, Goto(world, pid, disk, phase))
      modifies this`world, this`worlds, this`labels
      ensures Ready(phase) && world == Goto(old(world), pid, disk, phase)
    {
      Advance(name, 0, phase);
    }

    ghost method CleanReturn(name: string, op: Op, status: Status)
      requires Tracked() && (At(world, pid).List? || At(world, pid).Clean?)
      requires At(world, pid).op == op
      requires CleanStep(world, pid, name, Answer(world, pid, disk, op, status))
      modifies this`world, this`worlds, this`labels
      ensures Ready(Idle) && Extends(old(world.log), op, status)
    {
      Return(name, 0, op, status);
    }

    ghost method ProbeAdvance(phase: Phase)
      requires Tracked() && At(world, pid).Probe?
      requires ProbeStep(world, pid, Goto(world, pid, disk, phase))
      modifies this`world, this`worlds, this`labels
      ensures Ready(phase) && world == Goto(old(world), pid, disk, phase)
    {
      Advance("", 0, phase);
    }

    ghost method ProbeReturn(op: Op, status: Status)
      requires Tracked() && At(world, pid).Probe?
      requires At(world, pid).op == op
      requires ProbeStep(world, pid, Answer(world, pid, disk, op, status))
      modifies this`world, this`worlds, this`labels
      ensures Ready(Idle) && Extends(old(world.log), op, status)
    {
      Return("", 0, op, status);
    }

    ghost method CreateAdvance(name: string, ino: nat, phase: Phase)
      requires Tracked() && At(world, pid).Create?
      requires CreateStep(world, pid, name, ino, Goto(world, pid, disk, phase))
      modifies this`world, this`worlds, this`labels
      ensures Ready(phase) && world == Goto(old(world), pid, disk, phase)
    {
      Advance(name, ino, phase);
    }

    ghost method CreateReturn(name: string, ino: nat, op: Op, status: Status)
      requires Tracked() && At(world, pid).Create?
      requires At(world, pid).op == op
      requires CreateStep(world, pid, name, ino, Answer(world, pid, disk, op, status))
      modifies this`world, this`worlds, this`labels
      ensures Ready(Idle) && Extends(old(world.log), op, status)
    {
      Return(name, ino, op, status);
    }

    ghost method WriteAdvance(count: nat, phase: Phase)
      requires Tracked() && At(world, pid).Write?
      requires WriteStep(world, pid, count, Goto(world, pid, disk, phase))
      modifies this`world, this`worlds, this`labels
      ensures Ready(phase) && world == Goto(old(world), pid, disk, phase)
    {
      Advance("", count, phase);
    }

    ghost method SyncFileAdvance(phase: Phase)
      requires Tracked() && At(world, pid).SyncFile?
      requires SyncFileStep(world, pid, Goto(world, pid, disk, phase))
      modifies this`world, this`worlds, this`labels
      ensures Ready(phase) && world == Goto(old(world), pid, disk, phase)
    {
      Advance("", 0, phase);
    }

    ghost method LinkAdvance(phase: Phase)
      requires Tracked() && At(world, pid).Link?
      requires LinkStep(world, pid, Goto(world, pid, disk, phase))
      modifies this`world, this`worlds, this`labels
      ensures Ready(phase) && world == Goto(old(world), pid, disk, phase)
    {
      Advance("", 0, phase);
    }

    ghost method PublishAdvance(phase: Phase)
      requires Tracked() && (At(world, pid).SyncLink? || At(world, pid).Unlink? || At(world, pid).SyncUnlink?)
      requires PublishStep(world, pid, Goto(world, pid, disk, phase))
      modifies this`world, this`worlds, this`labels
      ensures Ready(phase) && world == Goto(old(world), pid, disk, phase)
    {
      Advance("", 0, phase);
    }

    ghost method PublishReturn(op: Op, status: Status)
      requires Tracked() && (At(world, pid).SyncLink? || At(world, pid).Unlink? || At(world, pid).SyncUnlink?)
      requires At(world, pid).op == op
      requires PublishStep(world, pid, Answer(world, pid, disk, op, status))
      modifies this`world, this`worlds, this`labels
      ensures Ready(Idle) && Extends(old(world.log), op, status)
    {
      Return("", 0, op, status);
    }

    ghost method AbandonAdvance(phase: Phase)
      requires Tracked() && (At(world, pid).ProbeFinal? || At(world, pid).DropPending? || At(world, pid).DropSync?)
      requires AbandonStep(world, pid, Goto(world, pid, disk, phase))
      modifies this`world, this`worlds, this`labels
      ensures Ready(phase) && world == Goto(old(world), pid, disk, phase)
    {
      Advance("", 0, phase);
    }

    ghost method AbandonReturn(op: Op, status: Status)
      requires Tracked() && (At(world, pid).ProbeFinal? || At(world, pid).DropPending? || At(world, pid).DropSync?)
      requires At(world, pid).op == op
      requires AbandonStep(world, pid, Answer(world, pid, disk, op, status))
      modifies this`world, this`worlds, this`labels
      ensures Ready(Idle) && Extends(old(world.log), op, status)
    {
      Return("", 0, op, status);
    }

    /** `new` fails and the file descriptor of the lock closes. */
    method Close(name: string)
      requires Tracked() && (At(world, pid).Locked? || At(world, pid).Scavenge? || At(world, pid).ScavengeSync?)
      requires StartupStep(world, pid, name, Gone(world, pid, disk))
      modifies this
      ensures Ready(Down) && world.log == old(world.log) && tick == old(tick)
    {
      locks := map i | i in locks && locks[i] != pid :: locks[i];
      Take(Go(pid, name, 0), Gone(world, pid, disk));
    }

    /** `new`, which refuses a capacity of zero: a store that opened holds the lock, no pending file is left, and
        every other file is as it was. It opens when no directory call fails and nobody holds the lock. */
    method Open() returns (ok: bool)
      requires Ready(Down)
      modifies this
      ensures Ready(if ok then Idle else Down) && world.log == old(world.log)
      ensures ok ==> LOCK_NAME in disk.dir && disk.dir[LOCK_NAME] in locks && locks[disk.dir[LOCK_NAME]] == pid
      ensures ok ==> NoPending(View(disk)) && Keeps(old(View(disk)), View(disk))
      ensures capacity == 0 ==> !ok && disk == old(disk)
      ensures old(tick) <= tick
      ensures Smooth(old(tick), tick) && capacity > 0 && LockFree(old(disk), old(locks)) ==> ok
    {
      if capacity == 0 {
        return false;
      }
      ok := AcquireInstanceLock();
      if ok {
        ok := CleanupStartupPending();
        if ok {
          Kept();
          assert LockInv(world, pid);
        }
      }
    }

    /** The lock file is created or opened, then locked without waiting. */
    method AcquireInstanceLock() returns (ok: bool)
      requires Ready(Down)
      modifies this
      ensures Ready(if ok then Locked else Down) && world.log == old(world.log)
      ensures ok ==> Keeps(old(View(disk)), View(disk))
      ensures old(tick) <= tick && (Smooth(old(tick), tick) ==> (LockFree(old(disk), old(locks)) ==> ok))
    {
      hide Init, Run, View, Keeps, SameBytes, StartupStep, CleanStep, ProbeStep, CreateStep;
      var handle := OpenLockFile();
      if handle.None? {
        return false;
      }
      var k := Kernel();
      if handle.value in locks || !k.fault.Works? {
        Take(Go(pid, "", 0), Goto(world, pid, disk, Down));
        return false;
      }
      locks := locks[handle.value := pid];
      Take(Go(pid, "", 0), Goto(world, pid, disk, Locked).(locks := locks));
      return true;
    }

    method OpenLockFile() returns (handle: Option<nat>)
      requires Ready(Down)
      modifies this
      ensures Ready(if handle.Some? then Handle(handle.value) else Down) && world.log == old(world.log)
      ensures handle.Some? ==> Keeps(old(View(disk)), View(disk))
      ensures locks == old(locks) && (handle.Some? && LockFree(old(disk), old(locks)) ==> handle.value !in locks)
      ensures old(tick) <= tick && (Smooth(old(tick), tick) ==> handle.Some?)
    {
      hide Init, Run, View, Keeps, Sole;
      NamesDisjoint(LOCK_NAME);
      LockFileKeeps(View(disk));
      var made, taken, tried := NewFile(LOCK_NAME);
      if made.Some? {
        Take(Go(pid, "", tried), Goto(world, pid, disk, Handle(made.value)));
        return made;
      }
      if taken {
        var present := Metadata(LOCK_NAME);
        if present == Some(true) {
          handle := Some(disk.dir[LOCK_NAME]);
          Take(Go(pid, "", tried), Goto(world, pid, disk, Handle(handle.value)));
          return;
        }
      }
      Take(Go(pid, "", tried), Goto(world, pid, disk, Down));
      return None;
    }

    /** One turn of the loop in `cleanup_startup_pending`. */
    method ScavengeOne(todo: set<string>, removedAny: bool, name: string) returns (ok: bool)
      requires Ready(Scavenge(todo, removedAny)) && name in todo
      modifies this
      ensures ok ==> Ready(Scavenge(todo - {name}, removedAny || IsPendingName(name)))
      ensures ok ==> View(disk) == if IsPendingName(name) then old(View(disk)) - {name} else old(View(disk))
      ensures !ok ==> Ready(Down)
      ensures world.log == old(world.log)
      ensures old(tick) <= tick
              && (Smooth(old(tick), tick) ==> (ok || (IsPendingName(name) && name !in old(View(disk)))))
    {
      ViewKeys();
      if IsPendingName(name) {
        ok := RemoveFile(name);
        if !ok {
          Close(name);
          return;
        }
      }
      StartupAdvance(name, Scavenge(todo - {name}, removedAny || IsPendingName(name)));
      ok := true;
    }

    method CleanupStartupPending() returns (ok: bool)
      requires Ready(Locked)
      modifies this
      ensures Ready(if ok then Idle else Down) && world.log == old(world.log)
      ensures ok ==> NoPending(View(disk)) && Keeps(old(View(disk)), View(disk))
      ensures old(tick) <= tick && (Smooth(old(tick), tick) ==> ok)
    {
      hide Init, Run, View, Keeps, PendingWithin, NoPending;
      var names := ListNames();
      if names.None? {
        Close("");
        return false;
      }
      var todo, removedAny := names.value, false;
      StartupAdvance("", Scavenge(todo, false));
      ScavengeStarts(View(disk));
      while todo != {}
        invariant Ready(Scavenge(todo, removedAny)) && world.log == old(world.log)
        invariant PendingWithin(View(disk), todo) && Keeps(old(View(disk)), View(disk))
        invariant old(tick) <= tick
        decreases todo
      {
        var name :| name in todo;
        ScavengeKeeps(old(View(disk)), View(disk), todo, name);
        var gone := ScavengeOne(todo, removedAny, name);
        if !gone {
          return false;
        }
        todo, removedAny := todo - {name}, removedAny || IsPendingName(name);
      }
      ScavengeEnds(View(disk));
      if removedAny {
        StartupAdvance("", ScavengeSync);
        var synced := SyncAll();
        if !synced {
          Close("");
          return false;
        }
      }
      StartupAdvance("", Idle);
      return true;
    }

    // ---- `check_and_record` ----

    /** A marker in the loop of `cleanup_and_count`: removed if expired, counted otherwise. */
    method CleanMarker(op: Op, todo: set<string>, count: nat, name: string) returns (next: Option<nat>)
      requires Ready(Clean(op, todo, count)) && name in todo && name in View(disk) && IsMarkerName(name)
      modifies this
      ensures var expired := Expired(old(View(disk))[name], op.now);
              next.Some? ==>
                && Ready(Clean(op, todo - {name}, next.value)) && world.log == old(world.log)
                && View(disk) == (if expired then old(View(disk)) - {name} else old(View(disk)))
                && next.value == count + if expired then 0 else 1
      ensures next.Some? ==> ParseExpiry(old(View(disk))[name]).Some?
      ensures next.None? ==> Ready(Idle) && Extends(old(world.log), op, Failed)
      ensures next.None? ==> KeepsStrange(old(View(disk)), View(disk))
      ensures old(tick) <= tick
              && (Smooth(old(tick), tick) ==> (next.Some? || ParseExpiry(old(View(disk))[name]).None?))
    {
      hide Init, Run, View, KeepsStrange;
      NamesDisjoint(name);
      StrangeKept(View(disk), name);
      var expiry := ReadExpiry(name);
      ViewReads(disk, name);
      if expiry.None? {
        CleanReturn(name, op, Failed);
        return None;
      }
      if expiry.value < op.now {
        var gone := RemoveFile(name);
        ViewReads(world.disk, name);
        if !gone {
          CleanReturn(name, op, Failed);
          return None;
        }
        CleanAdvance(name, Clean(op, todo - {name}, count));
        return Some(count);
      }
      CleanAdvance(name, Clean(op, todo - {name}, count + 1));
      return Some(count + 1);
    }

    /** One turn of the loop in `cleanup_and_count`: the new count. */
    method CleanOne(op: Op, todo: set<string>, count: nat, name: string) returns (next: Option<nat>)
      requires Ready(Clean(op, todo, count)) && name in todo && name in View(disk)
      modifies this
      ensures var lapsed := IsMarkerName(name) && Expired(old(View(disk))[name], op.now);
              next.Some? ==>
                && Ready(Clean(op, todo - {name}, next.value)) && world.log == old(world.log)
                && View(disk) == (if lapsed then old(View(disk)) - {name} else old(View(disk)))
                && next.value == count + if IsMarkerName(name) && !lapsed then 1 else 0
      ensures next.Some? ==> Known(name, old(View(disk))[name])
      ensures next.None? ==> Ready(Idle) && Extends(old(world.log), op, Failed)
      ensures next.None? ==> KeepsStrange(old(View(disk)), View(disk))
      ensures old(tick) <= tick && (Smooth(old(tick), tick) ==> (next.Some? || !Known(name, old(View(disk))[name])))
    {
      hide Init, Run, View, KeepsStrange;
      NamesDisjoint(name);
      StrangeKept(View(disk), name);
      if IsPendingName(name) {
        CleanAdvance(name, Clean(op, todo - {name}, count));
        return Some(count);
      }
      if name == LOCK_NAME {
        var present := Metadata(LOCK_NAME);
        if present.None? {
          CleanReturn(name, op, Failed);
          return None;
        }
        CleanAdvance(name, Clean(op, todo - {name}, count));
        return Some(count);
      }
      if !IsMarkerName(name) {
        CleanReturn(name, op, Failed);
        return None;
      }
      next := CleanMarker(op, todo, count, name);
    }

    ghost method BeginClean(op: Op, ok: bool)
      requires Ready(List(op))
      modifies this`world, this`worlds, this`labels
      ensures ok ==> Ready(Clean(op, disk.dir.Keys, 0)) && world.log == old(world.log)
      ensures !ok ==> Ready(Idle) && Extends(old(world.log), op, Failed)
    {
      if ok {
        CleanAdvance("", Clean(op, disk.dir.Keys, 0));
      } else {
        CleanReturn("", op, Failed);
      }
    }

    ghost method EndClean(op: Op, count: nat)
      requires Ready(Clean(op, {}, count))
      modifies this`world, this`worlds, this`labels
      ensures Ready(Probe(op, count)) && world.log == old(world.log)
    {
      CleanAdvance("", Probe(op, count));
    }

    /** The loop in `cleanup_and_count`. */
    method SweepAll(op: Op, names: set<string>) returns (count: Option<nat>, ghost counted: seq<string>)
      requires Ready(Clean(op, names, 0)) && names == View(disk).Keys
      modifies this
      ensures count.Some? ==> Ready(Clean(op, {}, count.value)) && world.log == old(world.log)
      ensures count.Some? ==> View(disk) == Swept(old(View(disk)), op.now)
      ensures count.Some? ==> Visited(old(View(disk)), op.now, {}, counted) && |counted| == count.value
      ensures count.Some? ==> Orderly(old(View(disk)))
      ensures count.None? ==> KeepsStrange(old(View(disk)), View(disk))
      ensures count.None? ==> Ready(Idle) && Extends(old(world.log), op, Failed)
      ensures old(tick) <= tick && (Smooth(old(tick), tick) ==> (count.Some? || !Orderly(old(View(disk)))))
    {
      hide *;
      ghost var v := View(disk);
      SweepEnds(v, op.now);
      OrderlyKnows(v);
      var todo, active := names, 0;
      counted := [];
      while todo != {}
        invariant Ready(Clean(op, todo, active)) && world.log == old(world.log)
        invariant todo <= v.Keys && View(disk) == SweptBut(v, op.now, todo)
        invariant active == |counted| && Visited(v, op.now, todo, counted)
        invariant forall n :: n in v && n !in todo ==> Known(n, v[n])
        invariant old(tick) <= tick
        decreases todo
      {
        var name :| name in todo;
        SweptStrange(v, op.now, todo);
        SweepOne(v, op.now, todo, name);
        ghost var before := tick;
        var next := CleanOne(op, todo, active, name);
        SmoothParts(old(tick), before, tick);
        if next.None? {
          return None, [];
        }
        counted := VisitOne(v, op.now, todo, counted, name);
        todo, active := todo - {name}, next.value;
      }
      return Some(active), counted;
    }

    /** `cleanup_and_count`: on success every file is known, every expired marker is gone, nothing else
        is, and the count is that of the markers in force. It fails only on a failed call or a strange
        file, and leaves strange files alone. */
    method CleanupAndCount(op: Op) returns (active: Option<nat>)
      requires Ready(List(op))
      modifies this
      ensures active.Some? ==> Ready(Probe(op, active.value)) && world.log == old(world.log)
      ensures active.Some? ==> View(disk) == Swept(old(View(disk)), op.now)
      ensures active.Some? ==> active.value == |ActiveNames(old(View(disk)), op.now)|
      ensures active.Some? ==> Orderly(old(View(disk)))
      ensures active.None? ==> KeepsStrange(old(View(disk)), View(disk))
      ensures active.None? ==> Ready(Idle) && Extends(old(world.log), op, Failed)
      ensures old(tick) <= tick && (Smooth(old(tick), tick) ==> (active.Some? || !Orderly(old(View(disk)))))
    {
      hide View, Swept, ActiveNames, Visited, Orderly, Init, Run, KeepsStrange;
      StrangeKept(View(disk), "");
      var names := ListNames();
      BeginClean(op, names.Some?);
      if names.None? {
        return None;
      }
      ghost var counted;
      active, counted := SweepAll(op, names.value);
      if active.Some? {
        VisitedAll(old(View(disk)), op.now, counted);
        EndClean(op, active.value);
      }
    }

    /** The key's own marker has expired and goes. */
    method EvictOwn(op: Op, active: nat) returns (ok: bool)
      requires Ready(Evict(op, active))
      modifies this
      ensures ok ==> Ready(Create(op, active)) && world.log == old(world.log)
      ensures ok ==> NameFor(op.key) !in View(disk)
      ensures !ok ==> Ready(Idle) && Extends(old(world.log), op, Failed)
      ensures old(tick) <= tick
    {
      ok := RemoveFile(NameFor(op.key));
      if ok {
        Advance("", 0, Create(op, active));
      } else {
        Return("", 0, op, Failed);
      }
    }

    /** The key's own marker: replay, expired, or not there. None means: go on and publish. */
    method ProbeOwn(op: Op, active: nat) returns (status: Option<Status>)
      requires Ready(Probe(op, active))
      modifies this
      ensures status.None? ==> Ready(Create(op, active)) && world.log == old(world.log)
      ensures status.None? ==> NameFor(op.key) !in View(disk)
      ensures status.Some? ==> Ready(Idle) && Extends(old(world.log), op, status.value) && !status.value.Fresh?
      ensures old(tick) <= tick
      ensures Smooth(old(tick), tick) && NameFor(op.key) !in old(View(disk)) ==>
              status.None? && View(disk) == old(View(disk))
      ensures Smooth(old(tick), tick) && InForce(old(View(disk)), NameFor(op.key), op.now) ==>
                status == Some(Replay) && View(disk) == old(View(disk))
    {
      hide Init, Run, View;
      var own := NameFor(op.key);
      var expiry := ReadExpiry(own);
      ViewReads(disk, own);
      if expiry.Some? && expiry.value >= op.now {
        ProbeReturn(op, Replay);
        return Some(Replay);
      }
      if expiry.Some? {
        ProbeAdvance(Evict(op, active));
        var gone := EvictOwn(op, active);
        return if gone then None else Some(Failed);
      }
      var present := Metadata(own);
      if present != Some(false) {
        ProbeReturn(op, Failed);
        return Some(Failed);
      }
      ProbeAdvance(Create(op, active));
      return None;
    }

    /** A random name for the pending file; the generator may fail. */
    method PendingFileName() returns (name: Option<string>)
      requires Valid()
      modifies this
      ensures Valid() && Unmoved(old(world), world) && View(disk) == old(View(disk))
      ensures tick == old(tick) + 1 && (name.Some? <==> io(old(tick)).fault.Works?)
      ensures name.Some? ==> name.value == PendingName(io(old(tick)).random)
    {
      var k := Kernel();
      if !k.fault.Works? {
        return None;
      }
      return Some(PendingName(k.random));
    }

    /** What came of the attempt to create the pending file. */
    method CreatePending(op: Op, active: nat) returns (r: Staging)
      requires Ready(Create(op, active)) && op.attempt <= 1
      modifies this
      ensures match r
              case Made(pending, ino) =>
                && Ready(Write(op, pending, ino, 0)) && world.log == old(world.log) && IsPendingName(pending)
                && active < capacity
                && pending !in old(View(disk)) && View(disk) == old(View(disk))[pending := ""]
                && Sole(disk, pending, ino)
              case Again => op.attempt == 0 && Ready(List(op.(attempt := 1))) && world.log == old(world.log)
              case Refused => Ready(Idle) && Extends(old(world.log), op, Failed)
      ensures old(tick) <= tick
      ensures Smooth(old(tick), tick) && active < capacity && !r.Made? ==>
                && Collides(old(View(disk)), old(tick), tick) && !NoPending(old(View(disk)))
                && View(disk) == old(View(disk)) && (op.attempt == 0 ==> r.Again?)
      ensures Smooth(old(tick), tick) && active >= capacity ==> r.Refused? && View(disk) == old(View(disk))
    {
      hide Init, Run, View;
      if active >= capacity {
        CreateReturn("", 0, op, Failed);
        return Refused;
      }
      var pending := PendingFileName();
      if pending.None? {
        CreateReturn("", 0, op, Failed);
        return Refused;
      }
      var made, taken, tried := NewFile(pending.value);
      if made.Some? {
        CreateAdvance(pending.value, tried, Write(op, pending.value, tried, 0));
        return Made(pending.value, made.value);
      }
      if taken && op.attempt == 0 {
        CreateAdvance(pending.value, tried, List(op.(attempt := 1)));
        return Again;
      }
      CreateReturn(pending.value, tried, op, Failed);
      return Refused;
    }

    /** One `write` of at least one byte. */
    method WriteSome(op: Op, pending: string, ino: nat, written: nat) returns (count: nat)
      requires Ready(Write(op, pending, ino, written)) && written < |MarkerText(op.expiry)| && Sole(disk, pending, ino)
      modifies this
      ensures written + count <= |MarkerText(op.expiry)|
      ensures count > 0 ==>
                && Ready(if written + count < |MarkerText(op.expiry)| then Write(op, pending, ino, written + count)
                         else SyncFile(op, pending, ino))
                && Sole(disk, pending, ino)
                && var more := MarkerText(op.expiry)[written..written + count];
                   View(disk) == old(View(disk))[pending := old(View(disk))[pending] + more]
      ensures count == 0 ==> Ready(ProbeFinal(op, pending))
      ensures world.log == old(world.log) && old(tick) <= tick && (Smooth(old(tick), tick) ==> count > 0)
    {
      hide Init, Run, View, MarkerText, Sole, SameBytes;
      var text := MarkerText(op.expiry);
      var k := Kernel();
      SoleKept(old(disk), disk, pending, ino);
      if !k.fault.Works? {
        WriteAdvance(0, ProbeFinal(op, pending));
        return 0;
      }
      count := if k.count == 0 then 1 else if k.count > |text| - written then |text| - written else k.count;
      AppendView(disk, pending, ino, text[written..written + count]);
      disk := Appended(disk, ino, text[written..written + count]);
      WriteAdvance(count, if written + count < |text| then Write(op, pending, ino, written + count)
                          else SyncFile(op, pending, ino));
    }

    /** `writeln!`: the marker text in as many pieces as the kernel likes. */
    method WriteText(op: Op, pending: string, ino: nat) returns (ok: bool)
      requires Ready(Write(op, pending, ino, 0)) && Sole(disk, pending, ino)
      requires pending in View(disk) && View(disk)[pending] == ""
      modifies this
      ensures ok ==> Ready(SyncFile(op, pending, ino)) && Sole(disk, pending, ino)
      ensures ok ==> View(disk) == old(View(disk))[pending := MarkerText(op.expiry)]
      ensures !ok ==> Ready(ProbeFinal(op, pending))
      ensures world.log == old(world.log) && old(tick) <= tick && (Smooth(old(tick), tick) ==> ok)
    {
      hide *;
      ghost var v := View(disk);
      var text := MarkerText(op.expiry);
      var written := 0;
      assert v == v[pending := text[..0]];
      while written < |text|
        invariant 0 <= written <= |text|
        invariant Ready(if written < |text| then Write(op, pending, ino, written) else SyncFile(op, pending, ino))
        invariant Sole(disk, pending, ino) && View(disk) == v[pending := text[..written]]
        invariant world.log == old(world.log) && old(tick) <= tick
      {
        ghost var before := tick;
        var count := WriteSome(op, pending, ino, written);
        SmoothParts(old(tick), before, tick);
        if count == 0 {
          return false;
        }
        assert text[..written] + text[written..written + count] == text[..written + count];
        written := written + count;
      }
      assert text[..|text|] == text;
      return true;
    }

    method SyncPending(op: Op, pending: string, ino: nat) returns (ok: bool)
      requires Ready(SyncFile(op, pending, ino)) && Sole(disk, pending, ino)
      modifies this
      ensures Ready(if ok then Link(op, pending, ino) else ProbeFinal(op, pending))
      ensures View(disk) == old(View(disk))
      ensures world.log == old(world.log) && old(tick) <= tick && (Smooth(old(tick), tick) ==> ok)
    {
      hide Init, Run;
      var k := Kernel();
      ok := k.fault.Works?;
      if ok {
        SyncedView(disk, ino);
        disk := FileSynced(disk, ino);
      }
      SyncFileAdvance(if ok then Link(op, pending, ino) else ProbeFinal(op, pending));
    }

    method LinkPending(op: Op, pending: string, ino: nat) returns (ok: bool)
      requires Ready(Link(op, pending, ino)) && pending in View(disk)
      modifies this
      ensures Ready(if ok then SyncLink(op, pending) else ProbeFinal(op, pending))
      ensures ok ==> View(disk) == old(View(disk))[NameFor(op.key) := old(View(disk))[pending]]
      ensures world.log == old(world.log) && old(tick) <= tick
      ensures Smooth(old(tick), tick) && NameFor(op.key) !in old(View(disk)) ==> ok
    {
      hide Init, Run;
      ok := HardLink(pending, NameFor(op.key));
      LinkAdvance(if ok then SyncLink(op, pending) else ProbeFinal(op, pending));
    }

    /** Writing, syncing and linking the pending file. */
    method Stage(op: Op, pending: string, ino: nat) returns (ok: bool)
      requires Ready(Write(op, pending, ino, 0)) && IsPendingName(pending) && Sole(disk, pending, ino)
      requires pending in View(disk) && View(disk)[pending] == ""
      modifies this
      ensures Ready(if ok then SyncLink(op, pending) else ProbeFinal(op, pending))
      ensures ok ==>
                var text := MarkerText(op.expiry);
                View(disk) == old(View(disk))[pending := text][NameFor(op.key) := text]
      ensures world.log == old(world.log) && old(tick) <= tick
      ensures Smooth(old(tick), tick) && NameFor(op.key) !in old(View(disk)) ==> ok
    {
      PendingNotRecorded(pending, op.key);
      ok := WriteText(op, pending, ino);
      if ok {
        ok := SyncPending(op, pending, ino);
        if ok {
          ok := LinkPending(op, pending, ino);
        }
      }
    }

    method SyncMarker(op: Op, pending: string) returns (ok: bool)
      requires Ready(SyncLink(op, pending))
      modifies this
      ensures Ready(if ok then Unlink(op, pending) else ProbeFinal(op, pending))
      ensures View(disk) == old(View(disk))
      ensures world.log == old(world.log) && old(tick) <= tick && (Smooth(old(tick), tick) ==> ok)
    {
      ok := SyncAll();
      PublishAdvance(if ok then Unlink(op, pending) else ProbeFinal(op, pending));
    }

    method UnlinkPending(op: Op, pending: string) returns (ok: bool)
      requires Ready(Unlink(op, pending)) && pending in View(disk)
      modifies this
      ensures Ready(if ok then SyncUnlink(op, pending) else ProbeFinal(op, pending))
      ensures ok ==> View(disk) == old(View(disk)) - {pending}
      ensures world.log == old(world.log) && old(tick) <= tick && (Smooth(old(tick), tick) ==> ok)
    {
      hide Init, Run, View;
      ViewKeys();
      ok := RemoveFile(pending);
      PublishAdvance(if ok then SyncUnlink(op, pending) else ProbeFinal(op, pending));
    }

    method SyncRemoval(op: Op, pending: string) returns (ok: bool)
      requires Ready(SyncUnlink(op, pending))
      modifies this
      ensures View(disk) == old(View(disk))
      ensures ok ==> Ready(Idle) && Extends(old(world.log), op, Fresh) && disk.durable == disk.dir
      ensures !ok ==> Ready(ProbeFinal(op, pending)) && world.log == old(world.log)
      ensures old(tick) <= tick && (Smooth(old(tick), tick) ==> ok)
    {
      ok := SyncAll();
      if ok {
        PublishReturn(op, Fresh);
      } else {
        PublishAdvance(ProbeFinal(op, pending));
      }
    }

    /** The two directory syncs around the removal of the pending name, and the answer. */
    method Finish(op: Op, pending: string) returns (ok: bool)
      requires Ready(SyncLink(op, pending)) && pending in View(disk)
      modifies this
      ensures ok ==> Ready(Idle) && Extends(old(world.log), op, Fresh) && View(disk) == old(View(disk)) - {pending}
      ensures ok ==> disk.durable == disk.dir
      ensures !ok ==> Ready(ProbeFinal(op, pending)) && world.log == old(world.log)
      ensures old(tick) <= tick && (Smooth(old(tick), tick) ==> ok)
    {
      ok := SyncMarker(op, pending);
      if ok {
        ok := UnlinkPending(op, pending);
        if ok {
          ok := SyncRemoval(op, pending);
        }
      }
    }

    method LookForMarker(op: Op, pending: string) returns (found: bool)
      requires Ready(ProbeFinal(op, pending))
      modifies this
      ensures Ready(DropPending(op, pending, found)) && world.log == old(world.log) && View(disk) == old(View(disk))
      ensures tick == old(tick) + 1 && (found <==> io(old(tick)).fault.Works? && NameFor(op.key) in old(View(disk)))
    {
      hide Init, Run, View;
      var present := Metadata(NameFor(op.key));
      found := present == Some(true);
      AbandonAdvance(DropPending(op, pending, found));
    }

    method DropPendingFile(op: Op, pending: string, found: bool)
      requires Ready(DropPending(op, pending, found))
      modifies this
      ensures Ready(DropSync(op, pending, found)) && world.log == old(world.log)
      ensures tick == old(tick) + 1 && (io(old(tick)).fault.Works? ==> View(disk) == old(View(disk)) - {pending})
    {
      hide Init, Run, View;
      var _ := RemoveFile(pending);
      AbandonAdvance(DropSync(op, pending, found));
    }

    /** After a failed publication: whether the round is to be repeated, which is when this is the first attempt and
        the kernel reports the marker. The pending file is removed and the directory synced if the kernel does so. */
    method Abandon(op: Op, pending: string) returns (again: bool)
      requires Ready(ProbeFinal(op, pending))
      modifies this
      ensures again ==> op.attempt == 0 && Ready(List(op.(attempt := 1))) && world.log == old(world.log)
      ensures !again ==> Ready(Idle) && Extends(old(world.log), op, Failed)
      ensures tick == old(tick) + 3
      ensures again <==> op.attempt == 0 && io(old(tick)).fault.Works? && NameFor(op.key) in old(View(disk))
      ensures io(old(tick) + 1).fault.Works? ==> View(disk) == old(View(disk)) - {pending}
      ensures io(old(tick) + 2).fault.Works? ==> disk.durable == disk.dir
    {
      hide Init, Run, View;
      var found := LookForMarker(op, pending);
      DropPendingFile(op, pending, found);
      var _ := SyncAll();
      again := found && op.attempt == 0;
      if again {
        AbandonAdvance(List(op.(attempt := 1)));
      } else {
        AbandonReturn(op, Failed);
      }
    }

    /** Publishing a new marker: None means the round starts again. */
    method Publish(op: Op, active: nat) returns (status: Option<Status>)
      requires Ready(Create(op, active)) && op.attempt <= 1
      modifies this
      ensures status.Some? ==> Ready(Idle) && Extends(old(world.log), op, status.value) && !status.value.Replay?
      ensures status.None? ==> op.attempt == 0 && Ready(List(op.(attempt := 1))) && world.log == old(world.log)
      ensures status == Some(Fresh) ==> disk.durable == disk.dir
      ensures old(tick) <= tick
      ensures Smooth(old(tick), tick) && NameFor(op.key) !in old(View(disk)) ==>
                Publishes(op, active, status, old(View(disk)), View(disk), old(tick), tick)
    {
      hide Init, Run, View, Smooth, Collides, Sole;
      ghost var v, own := View(disk), NameFor(op.key);
      var made := CreatePending(op, active);
      ghost var middle := tick;
      match made
      case Refused =>
        return Some(Failed);
      case Again =>
        return None;
      case Made(pending, ino) =>
        PendingNotRecorded(pending, op.key);
        var ok := Stage(op, pending, ino);
        SmoothParts(old(tick), middle, tick);
        ghost var staged := tick;
        if ok {
          ok := Finish(op, pending);
          SmoothParts(old(tick), staged, tick);
          if ok {
            PublishedView(v, pending, own, MarkerText(op.expiry));
            return Some(Fresh);
          }
        }
        ghost var failed := tick;
        var again := Abandon(op, pending);
        SmoothParts(old(tick), failed, tick);
        return if again then None else Some(Failed);
    }

    /** What publishing comes to without failed calls: no room, a new marker, or a random name that was taken. */
    ghost predicate Publishes(op: Op, active: nat, status: Option<Status>, v: map<string, string>, v': map<string,
                              string>,
                              from: nat, to: nat)
    {
      if active >= capacity then status == Some(Failed) && v' == v
      else
        || (status == Some(Fresh) && v' == v[NameFor(op.key) := MarkerText(op.expiry)])
        || (Collides(v, from, to) && !NoPending(v) && v' == v && status == if op.attempt == 0 then None
           else Some(Failed))
    }

    /** The part of a round after the cleanup: None means the round starts again. */
    method Record(op: Op, active: nat) returns (status: Option<Status>)
      requires Ready(Probe(op, active)) && op.attempt <= 1
      modifies this
      ensures status.Some? ==> Ready(Idle) && Extends(old(world.log), op, status.value)
      ensures status.None? ==> op.attempt == 0 && Ready(List(op.(attempt := 1))) && world.log == old(world.log)
      ensures status == Some(Fresh) ==> disk.durable == disk.dir
      ensures old(tick) <= tick
      ensures Smooth(old(tick), tick) && InForce(old(View(disk)), NameFor(op.key), op.now) ==>
                status == Some(Replay) && View(disk) == old(View(disk))
      ensures Smooth(old(tick), tick) && NameFor(op.key) !in old(View(disk)) ==>
                Publishes(op, active, status, old(View(disk)), View(disk), old(tick), tick)
    {
      hide Init, Run, View, Smooth, Collides, InForce;
      ghost var v := View(disk);
      status := ProbeOwn(op, active);
      ghost var middle := tick;
      if status.None? {
        status := Publish(op, active);
        CollidesWithin(v, v, old(tick), middle, tick, tick);
      }
      SmoothParts(old(tick), middle, tick);
    }

    /** One attempt of the loop. */
    method Round(op: Op) returns (status: Option<Status>)
      requires Ready(List(op)) && op.attempt <= 1 && op.now <= op.expiry
      modifies this
      ensures status.Some? ==> Ready(Idle) && Extends(old(world.log), op, status.value)
      ensures status.None? ==> op.attempt == 0 && Ready(List(op.(attempt := 1))) && world.log == old(world.log)
      ensures !Orderly(old(View(disk))) ==> status == Some(Failed) && KeepsStrange(old(View(disk)), View(disk))
      ensures status == Some(Fresh) ==> disk.durable == disk.dir
      ensures old(tick) <= tick
      ensures Smooth(old(tick), tick) && Orderly(old(View(disk))) ==>
                Rounds(old(View(disk)), op, Collides(old(View(disk)), old(tick), tick), status, View(disk))
    {
      hide Swept, ActiveNames, Orderly, NoPending, AnswerOn, NextOn, InForce, View, KeepsStrange, Smooth, Collides,
           Init, Run;
      ghost var v := View(disk);
      Outcome(v, capacity, op);
      var active := CleanupAndCount(op);
      ghost var u, middle := View(disk), tick;
      if active.None? {
        return Some(Failed);
      }
      status := Record(op, active.value);
      SmoothParts(old(tick), middle, tick);
      SweptWithin(v, op.now);
      CollidesWithin(u, v, old(tick), middle, tick, tick);
    }

    /** What a round comes to without failed calls. */
    ghost predicate Rounds(v: map<string, string>, op: Op, taken: bool, status: Option<Status>, v': map<string,
                           string>) {
      match status
      case Some(answer) => Settles(v, capacity, op, taken && op.attempt > 0, answer, v')
      case None => taken && NameTaken(v, capacity, op) && v' == Swept(v, op.now)
    }

    /** `check_and_record`: at most two attempts. The answer goes to the log of a run of the
        machine. In a directory with a strange file or an unreadable marker it is an error, and those
        files stay. If none of this call's own directory calls failed and the directory was in order, it
        is the answer and the new directory that the names and bytes dictate; and then a key without a
        marker is not taken for a replay. What happened to earlier calls does not matter. */
    method CheckAndRecord(key: ReplayKey, expiry: I64, now: I64) returns (status: Status)
      requires Ready(Idle) && world.clock <= now
      modifies this
      ensures Ready(Idle) && world.log == old(world.log) + [Event(key, expiry, now, status)] && world.clock == now
      ensures status == Fresh ==> disk.durable == disk.dir
      ensures AtMostOnce(world.log) && Timely(world.log)
      ensures !Orderly(old(View(disk))) ==> status == Failed && KeepsStrange(old(View(disk)), View(disk))
      ensures old(tick) <= tick
      ensures Smooth(old(tick), tick) && Orderly(old(View(disk))) ==>
                Settles(old(View(disk)), capacity, Op(key, expiry, now, 0),
                        CollidesTwice(old(View(disk)), old(tick), tick), status, View(disk))
      ensures Smooth(old(tick), tick) && NameFor(key) !in old(View(disk)) ==> status != Replay
    {
      hide AnswerOn, NextOn, Orderly, View, Init, Run, KeepsStrange, Settles, NameTaken, Swept, Smooth, Collides,
           CollidesTwice;
      ghost var v := View(disk);
      var op := Op(key, expiry, now, 0);
      SweptAgain(View(disk), capacity, op);
      if NameFor(key) !in View(disk) {
        NewKeyNotReplayed(View(disk), capacity, op);
      }
      Stale(View(disk), capacity, op);
      Enter(op);
      if expiry < now {
        AnswersSafe();
        return Failed;
      }
      var first := Round(op);
      SettlesMore(v, capacity, op);
      if first.Some? {
        AnswersSafe();
        return first.value;
      }
      ghost var middle := tick;
      var second := Round(op.(attempt := 1));
      SmoothParts(old(tick), middle, tick);
      if Collides(v, old(tick), middle) {
        SweptWithin(v, now);
        CollidesAgain(Swept(v, now), v, old(tick), middle, tick);
      }
      AnswersSafe();
      return second.value;
    }

    /** The call takes the lock and the clock reading; a stale expiry is refused at once. */
    ghost method Enter(op: Op)
      requires Ready(Idle) && world.clock <= op.now && op.attempt == 0
      modifies this`world, this`worlds, this`labels
      ensures op.expiry < op.now ==> Ready(Idle) && Extends(old(world.log), op, Failed)
      ensures op.now <= op.expiry ==> Ready(List(op)) && world.log == old(world.log)
    {
      var v := world.(clock := op.now);
      Take(Call(pid, op.key, op.expiry, op.now),
           if op.expiry < op.now then Answer(v, pid, disk, op, Failed) else Goto(v, pid, disk, List(op)));
    }

    lemma AnswersSafe()
      requires Tracked()
      ensures AtMostOnce(world.log) && Timely(world.log)
    {
      Kept();
    }
  }

  lemma Stale(v: map<string, string>, capacity: nat, op: Op)
    ensures op.expiry < op.now ==> forall taken :: Settles(v, capacity, op, taken, Failed, v)
    ensures KeepsStrange(v, v)
  {
  }

  lemma SettlesMore(v: map<string, string>, capacity: nat, op: Op)
    ensures forall less, more, status, v' ::
              Settles(v, capacity, op, less, status, v') && (less ==> more) ==>
                  Settles(v, capacity, op, more, status, v')
  {
  }

  /** A second attempt finds what the first one would have found. */
  lemma SweptAgain(v: map<string, string>, capacity: nat, op: Op)
    requires op.attempt == 0
    ensures var u := Swept(v, op.now);
            Orderly(v) && op.now <= op.expiry && NameTaken(v, capacity, op) ==>
              && Orderly(u)
              && forall taken, status, v' :: Settles(u, capacity, op.(attempt := 1), taken, status, v') ==>
                 Settles(v, capacity, op, taken, status, v')
  {
    var u := Swept(v, op.now);
    assert Swept(u, op.now) == u;
    assert ActiveNames(u, op.now) == ActiveNames(v, op.now);
  }

  /** A key without a marker is not taken for a replay. */
  lemma NewKeyNotReplayed(v: map<string, string>, capacity: nat, op: Op)
    requires NameFor(op.key) !in v
    ensures forall taken, status, v' :: Settles(v, capacity, op, taken, status, v') ==> status != Replay
  {
  }

  lemma PublishedView(v: map<string, string>, pending: string, own: string, text: string)
    requires own != pending
    ensures pending !in v ==> v[pending := ""][pending := text][own := text] - {pending} == v[own := text]
  {
  }

  lemma SweptWithin(v: map<string, string>, now: I64)
    ensures Swept(v, now).Keys <= v.Keys
  {
  }

  /** The cases of a failure-free round. */
  lemma Outcome(v: map<string, string>, capacity: nat, op: Op)
    requires op.now <= op.expiry
    ensures var u, own := Swept(v, op.now), NameFor(op.key);
            Orderly(v) ==>
              && (NoPending(u) <==> NoPending(v))
              && (InForce(u, own, op.now) || own !in u)
              && (InForce(u, own, op.now) ==> AnswerOn(v, capacity, op) == Replay && NextOn(v, capacity, op) == u)
              && (own !in u && |ActiveNames(v, op.now)| >= capacity ==>
                    AnswerOn(v, capacity, op) == Failed && NextOn(v, capacity, op) == u)
              && (own !in u && |ActiveNames(v, op.now)| < capacity ==>
                    AnswerOn(v, capacity, op) == Fresh && NextOn(v, capacity, op) == u[own := MarkerText(op.expiry)])
  {
    forall n | n in v && IsPendingName(n) ensures n in Swept(v, op.now) {
      NamesDisjoint(n);
    }
  }

  lemma AppendView(d: Disk, name: string, ino: nat, bytes: string)
    requires Sole(d, name, ino)
    ensures View(Appended(d, ino, bytes)) == View(d)[name := View(d)[name] + bytes]
    ensures Sole(Appended(d, ino, bytes), name, ino)
  {
  }

  lemma CreatedView(d: Disk, name: string, ino: nat)
    requires forall n :: n in d.dir ==> d.dir[n] in d.inodes
    requires name !in d.dir && ino !in d.inodes
    ensures View(Created(d, name, ino)) == View(d)[name := ""] && Sole(Created(d, name, ino), name, ino)
  {
  }

  lemma RemovedView(d: Disk, name: string)
    ensures View(Removed(d, name)) == View(d) - {name}
  {
  }

  lemma SoleKept(d: Disk, d': Disk, name: string, ino: nat)
    requires Sole(d, name, ino) && SameBytes(d, d')
    ensures Sole(d', name, ino) && ino in d'.inodes
  {
  }

  lemma SyncedView(d: Disk, ino: nat)
    requires ino in d.inodes
    ensures View(FileSynced(d, ino)) == View(d)
  {
  }

  /** A readable marker that has not expired. */
  predicate InForce(v: map<string, string>, name: string, now: I64) {
    name in v && ParseExpiry(v[name]).Some? && !Expired(v[name], now)
  }

  /** The pending file was made, its name was taken and the round starts again, or the call failed. */
  datatype Staging = Made(pending: string, ino: nat) | Again | Refused

  /** The only entry that points to the file. */
  predicate Sole(d: Disk, name: string, ino: nat) {
    Holds(d, name) && d.dir[name] == ino && forall n :: n in d.dir && n != name ==> d.dir[n] != ino
  }

  /** Expired markers are gone but for those still to be visited. */
  ghost function SweptBut(v: map<string, string>, now: I64, todo: set<string>): map<string, string> {
    map n | n in v && (n in todo || !(IsMarkerName(n) && Expired(v[n], now))) :: v[n]
  }

  /** The markers in force among the names already visited, each once. */
  ghost predicate Visited(v: map<string, string>, now: I64, todo: set<string>, counted: seq<string>) {
    && (forall i, j :: 0 <= i < j < |counted| ==> counted[i] != counted[j])
    && (forall n :: n in counted <==> n in v && n !in todo && IsMarkerName(n) && !Expired(v[n], now))
  }

  lemma VisitOne(v: map<string, string>, now: I64, todo: set<string>, counted: seq<string>, name: string)
      returns (more: seq<string>)
    requires name in todo && name in v && Visited(v, now, todo, counted)
    ensures Visited(v, now, todo - {name}, more)
    ensures |more| == |counted| + if IsMarkerName(name) && !Expired(v[name], now) then 1 else 0
  {
    more := if IsMarkerName(name) && !Expired(v[name], now) then counted + [name] else counted;
  }

  lemma VisitedAll(v: map<string, string>, now: I64, counted: seq<string>)
    requires Visited(v, now, {}, counted)
    ensures |counted| == |ActiveNames(v, now)|
  {
    assert forall n :: n in counted <==> n in ActiveNames(v, now);
    DistinctSize(counted, ActiveNames(v, now));
  }

  lemma {:induction false} DistinctSize(s: seq<string>, names: set<string>)
    requires forall i, j :: 0 <= i < j < |s| ==> s[i] != s[j]
    requires forall n :: n in s <==> n in names
    ensures |s| == |names|
  {
    if s != [] {
      var n := |s| - 1;
      assert s[n] in names;
      forall x ensures x in s[..n] <==> x in names - {s[n]} {
        if x in s[..n] { assert x in s; }
        if x in names - {s[n]} { assert x in s; }
      }
      DistinctSize(s[..n], names - {s[n]});
    } else {
      assert names == {};
    }
  }

  lemma SweepEnds(v: map<string, string>, now: I64)
    ensures SweptBut(v, now, v.Keys) == v && SweptBut(v, now, {}) == Swept(v, now)
    ensures Visited(v, now, v.Keys, [])
  {
  }

  lemma OrderlyKnows(v: map<string, string>)
    ensures Orderly(v) <==> forall n :: n in v ==> Known(n, v[n])
  {
  }

  lemma StrangeKept(v: map<string, string>, name: string)
    ensures KeepsStrange(v, v)
    ensures name in v && Known(name, v[name]) ==> KeepsStrange(v, v - {name})
  {
  }

  lemma SweptStrange(v: map<string, string>, now: I64, todo: set<string>)
    ensures forall u :: KeepsStrange(SweptBut(v, now, todo), u) ==> KeepsStrange(v, u)
  {
  }

  /** Visiting one name. */
  lemma SweepOne(v: map<string, string>, now: I64, todo: set<string>, name: string)
    requires name in todo && name in v
    ensures name in SweptBut(v, now, todo) && SweptBut(v, now, todo)[name] == v[name]
    ensures SweptBut(v, now, todo - {name}) ==
            if IsMarkerName(name) && Expired(v[name], now) then SweptBut(v, now, todo) - {name}
            else SweptBut(v, now, todo)
  {
  }

  lemma ViewReads(d: Disk, name: string)
    ensures name in View(d) ==> ExpiryOf(d, name) == ParseExpiry(View(d)[name])
    ensures name !in View(d) ==> ExpiryOf(d, name) == None
  {
  }

  // ---- The in-memory store agrees ----

  /** A directory that says what a table of entries says: one complete marker for each entry. */
  predicate Coupled(mem: Memory.Entries, v: map<string, string>) {
    && (forall n :: n in v ==>
          n == LOCK_NAME || (IsMarkerName(n) && KeyFor(n) in mem && v[n] == MarkerText(mem[KeyFor(n)])))
    && (forall k :: k in mem ==> NameFor(k) in v)
  }

  predicate NonNegative(mem: Memory.Entries) {
    forall k :: k in mem ==> 0 <= mem[k]
  }

  /** Such a directory is in order exactly when no entry is negative. */
  lemma CoupledOrderly(mem: Memory.Entries, v: map<string, string>)
    requires Coupled(mem, v)
    ensures NoPending(v) && (Orderly(v) <==> NonNegative(mem))
  {
    forall n | n in v
      ensures !IsPendingName(n)
      ensures n != LOCK_NAME ==> (Known(n, v[n]) <==> 0 <= mem[KeyFor(n)])
    {
      NamesDisjoint(n);
      if n != LOCK_NAME {
        MarkerReads(mem[KeyFor(n)]);
      }
    }
    forall k | k in mem && Orderly(v) ensures 0 <= mem[k] {
      NamesAreKeys(k, NameFor(k));
      NamesDisjoint(NameFor(k));
      assert Known(NameFor(k), v[NameFor(k)]);
    }
  }

  lemma CoupledAt(mem: Memory.Entries, v: map<string, string>, k: ReplayKey, now: I64)
    requires Coupled(mem, v) && NonNegative(mem)
    ensures NameFor(k) in v <==> k in mem
    ensures k in mem ==> v[NameFor(k)] == MarkerText(mem[k]) && (Expired(v[NameFor(k)], now) <==> mem[k] < now)
  {
    NamesAreKeys(k, NameFor(k));
    NamesDisjoint(NameFor(k));
    if k in mem {
      MarkerReads(mem[k]);
    }
  }

  lemma SweptCoupled(mem: Memory.Entries, v: map<string, string>, now: I64)
    requires Coupled(mem, v) && NonNegative(mem)
    ensures Coupled(Memory.Retain(mem, now), Swept(v, now)) && NonNegative(Memory.Retain(mem, now))
  {
    forall n | n in Swept(v, now) && n != LOCK_NAME
      ensures KeyFor(n) in Memory.Retain(mem, now)
    {
      NamesAreKeys(KeyFor(n), n);
      CoupledAt(mem, v, KeyFor(n), now);
    }
    forall k | k in Memory.Retain(mem, now)
      ensures NameFor(k) in Swept(v, now)
    {
      CoupledAt(mem, v, k, now);
    }
  }

  /** As many markers in force as entries in force. */
  lemma ActiveCoupled(mem: Memory.Entries, v: map<string, string>, now: I64)
    requires Coupled(mem, v) && NonNegative(mem)
    ensures |ActiveNames(v, now)| == |Memory.Retain(mem, now)|
  {
    var names, keys := ActiveNames(v, now), Memory.Retain(mem, now).Keys;
    forall k | k in keys ensures NameFor(k) in names {
      CoupledAt(mem, v, k, now);
    }
    forall n | n in names ensures IsMarkerName(n) && KeyFor(n) in keys {
      NamesAreKeys(KeyFor(n), n);
      CoupledAt(mem, v, KeyFor(n), now);
    }
    SameSize(names, keys);
  }

  lemma {:induction false} SameSize(names: set<string>, keys: set<ReplayKey>)
    requires forall n :: n in names ==> IsMarkerName(n) && KeyFor(n) in keys
    requires forall k :: k in keys ==> NameFor(k) in names
    ensures |names| == |keys|
    decreases |keys|
  {
    hide Hex, Unhex, NameFor, KeyFor, IsMarkerName;
    if keys == {} {
      assert names == {};
    } else {
      var k :| k in keys;
      var n := NameFor(k);
      forall m | m in names - {n} ensures KeyFor(m) in keys - {k} {
        NamesAreKeys(k, m);
      }
      forall j | j in keys - {k} ensures NameFor(j) in names - {n} {
        NamesAreKeys(j, n);
        NamesAreKeys(k, n);
      }
      SameSize(names - {n}, keys - {k});
    }
  }

  /** While the directory is in order the two stores answer alike and go on saying the same; the directory stays
      in order exactly when no negative expiry is answered `Fresh`. */
  lemma StoresAgree(mem: Memory.Entries, v: map<string, string>, capacity: nat, op: Op)
    requires Coupled(mem, v) && Orderly(v)
    ensures AnswerOn(v, capacity, op) == Memory.Answer(mem, capacity, op.key, op.expiry, op.now)
    ensures Coupled(Memory.Next(mem, capacity, op.key, op.expiry, op.now), NextOn(v, capacity, op))
    ensures Orderly(NextOn(v, capacity, op)) <==> (AnswerOn(v, capacity, op).Fresh? ==> 0 <= op.expiry)
  {
    hide Coupled, Orderly, ActiveNames;
    CoupledOrderly(mem, v);
    SweptCoupled(mem, v, op.now);
    CoupledOrderly(Memory.Retain(mem, op.now), Swept(v, op.now));
    ActiveCoupled(mem, v, op.now);
    CoupledAt(Memory.Retain(mem, op.now), Swept(v, op.now), op.key, op.now);
    if AnswerOn(v, capacity, op).Fresh? {
      AddCoupled(Memory.Retain(mem, op.now), Swept(v, op.now), op.key, op.expiry);
      OrderKeptIffNonNegative(v, capacity, op);
    }
  }

  lemma AddCoupled(mem: Memory.Entries, v: map<string, string>, key: ReplayKey, expiry: I64)
    requires Coupled(mem, v)
    ensures Coupled(mem[key := expiry], v[NameFor(key) := MarkerText(expiry)])
  {
    hide Hex, Unhex, NameFor, KeyFor, IsMarkerName, MarkerText;
    var own := NameFor(key);
    NamesAreKeys(key, own);
    forall n | n in v && n != own && n != LOCK_NAME
      ensures KeyFor(n) != key
    {
      NamesAreKeys(key, n);
    }
  }

  /** What `CheckAndRecord` promises of a call without failed directory calls. */
  predicate Obeys(v: map<string, string>, capacity: nat, op: Op, status: Status, v': map<string, string>) {
    && (Orderly(v) ==> Settles(v, capacity, op, true, status, v'))
    && (!Orderly(v) ==> status == Failed && KeepsStrange(v, v'))
  }

  lemma StrangeStays(v: map<string, string>, v': map<string, string>)
    requires !Orderly(v) && KeepsStrange(v, v')
    ensures !Orderly(v')
  {
    var n :| n in v && !Known(n, v[n]);
    assert n in v' && !Known(n, v'[n]);
  }

  /** An earlier answer in the log was `Fresh` with a negative expiry. */
  predicate Poisoned(log: seq<Event>, i: nat) {
    exists a :: 0 <= a < i && a < |log| && log[a].status.Fresh? && log[a].expiry < 0
  }

  /** Where the two stores stand: alike, or the directory is out of order for good. */
  predicate Parallel(log: seq<Event>, entries: Memory.Entries, v: map<string, string>) {
    if Poisoned(log, |log|) then !Orderly(v) else Coupled(entries, v) && Orderly(v)
  }

  /** One call on both. */
  lemma CallsAgree(log: seq<Event>, mem: Memory.Entries, v: map<string, string>, capacity: nat, c: Memory.Call,
                   status: Status, v': map<string, string>)
    requires Parallel(log, mem, v) && Obeys(v, capacity, Op(c.key, c.expiry, c.now, 0), status, v')
    ensures status == if Poisoned(log, |log|) then Failed else Memory.Answer(mem, capacity, c.key, c.expiry, c.now)
    ensures Parallel(log + [Memory.EventOf(mem, capacity, c)], Memory.Next(mem, capacity, c.key, c.expiry, c.now), v')
  {
    hide Coupled, Orderly, NoPending, KeepsStrange, AnswerOn, NextOn, Memory.Answer, Memory.Next;
    var log' := log + [Memory.EventOf(mem, capacity, c)];
    PoisonSnoc(log, Memory.EventOf(mem, capacity, c));
    if Poisoned(log, |log|) {
      StrangeStays(v, v');
    } else {
      CoupledOrderly(mem, v);
      StoresAgree(mem, v, capacity, Op(c.key, c.expiry, c.now, 0));
    }
  }

  lemma PoisonSnoc(log: seq<Event>, e: Event)
    ensures Poisoned(log + [e], |log| + 1) <==> Poisoned(log, |log|) || (e.status.Fresh? && e.expiry < 0)
    ensures forall i: nat :: i <= |log| ==> (Poisoned(log + [e], i) <==> Poisoned(log, i))
  {
    var l := log + [e];
    if Poisoned(log, |log|) {
      var a :| 0 <= a < |log| && log[a].status.Fresh? && log[a].expiry < 0;
      assert l[a] == log[a];
    }
    if e.status.Fresh? && e.expiry < 0 {
      assert l[|log|] == e;
    }
    forall i: nat | i <= |log| && Poisoned(log, i) ensures Poisoned(l, i) {
      var a :| 0 <= a < i && a < |log| && log[a].status.Fresh? && log[a].expiry < 0;
      assert l[a] == log[a];
    }
  }

  /** The directories before and after each of some failure-free calls, and the answers. */
  ghost predicate DirectoryRun(capacity: nat, calls: seq<Memory.Call>, vs: seq<map<string, string>>,
                               answers: seq<Status>) {
    && |vs| == |calls| + 1 && |answers| == |calls| && Coupled(map[], vs[0])
    && forall i {:trigger answers[i]} :: 0 <= i < |calls| ==>
         Obeys(vs[i], capacity, Op(calls[i].key, calls[i].expiry, calls[i].now, 0), answers[i], vs[i + 1])
  }

  lemma {:induction false} RunParallel(capacity: nat, calls: seq<Memory.Call>, vs: seq<map<string, string>>,
                                       answers: seq<Status>)
    requires DirectoryRun(capacity, calls, vs, answers)
    ensures var (log, entries) := Memory.Play(capacity, calls);
            && Parallel(log, entries, vs[|calls|])
            && forall i :: 0 <= i < |calls| ==> answers[i] == if Poisoned(log, i) then Failed else log[i].status
  {
    hide Coupled, Obeys, Parallel, Poisoned, Memory.Answer, Memory.Next;
    if calls == [] {
      NothingSaid(vs[0]);
    } else {
      var n := |calls| - 1;
      RunParallel(capacity, calls[..n], vs[..n + 1], answers[..n]);
      var (log, entries) := Memory.Play(capacity, calls[..n]);
      CallsAgree(log, entries, vs[n], capacity, calls[n], answers[n], vs[n + 1]);
      PoisonSnoc(log, Memory.EventOf(entries, capacity, calls[n]));
    }
  }

  lemma NothingSaid(v: map<string, string>)
    requires Coupled(map[], v)
    ensures Parallel([], map[], v)
  {
    CoupledOrderly(map[], v);
  }

  /** Over every failure-free run the file store answers like the in-memory store until a negative expiry is
      answered `Fresh`, and with an error ever after. So both give the same answers exactly when from there on
      the in-memory store does nothing but refuse. */
  lemma RunsAgree(capacity: nat, calls: seq<Memory.Call>, vs: seq<map<string, string>>, answers: seq<Status>)
    requires DirectoryRun(capacity, calls, vs, answers)
    ensures var log := Memory.Play(capacity, calls).0;
            && (forall i :: 0 <= i < |calls| ==> answers[i] == if Poisoned(log, i) then Failed else log[i].status)
            && ((forall i :: 0 <= i < |calls| ==> answers[i] == log[i].status) <==>
                forall i :: 0 <= i < |calls| && Poisoned(log, i) ==> log[i].status == Failed)
  {
    hide Obeys, Coupled, Poisoned, Memory.Play, Parallel;
    RunParallel(capacity, calls, vs, answers);
    var log := Memory.Play(capacity, calls).0;
    if forall i :: 0 <= i < |calls| ==> answers[i] == log[i].status {
      forall i | 0 <= i < |calls| && Poisoned(log, i) ensures log[i].status == Failed {
        assert answers[i] == log[i].status;
      }
    }
  }

  /** They do part: with room for one, a key that lapses at -1 and is presented twice at -2 is a replay to the
      in-memory store and an error to the file store. */
  lemma StoresPart(key: ReplayKey) returns (vs: seq<map<string, string>>, answers: seq<Status>)
    ensures var c := Memory.Call(key, -1, -2);
            && DirectoryRun(1, [c, c], vs, answers) && answers == [Fresh, Failed]
            && Memory.Play(1, [c, c]).0 == [Event(key, -1, -2, Fresh), Event(key, -1, -2, Replay)]
  {
    hide Orderly, Coupled, AnswerOn, NextOn, KeepsStrange, Memory.Play, Memory.Answer, Memory.Next;
    var op, first: map<string, string> := Op(key, -1, -2, 0), map[LOCK_NAME := ""];
    var second := NextOn(first, 1, op);
    vs, answers := [first, second, second], [Fresh, Failed];
    LockFileCoupled();
    CoupledOrderly(map[], first);
    StoresAgree(map[], first, 1, op);
    PlaysReplay(key);
    StrangeKept(second, "");
    assert Obeys(first, 1, op, Fresh, second) && Obeys(second, 1, op, Failed, second);
  }

  lemma LockFileCoupled()
    ensures Coupled(map[], map[LOCK_NAME := ""])
  {
  }

  lemma PlaysReplay(key: ReplayKey)
    ensures var c := Memory.Call(key, -1, -2);
            Memory.Play(1, [c, c]).0 == [Event(key, -1, -2, Fresh), Event(key, -1, -2, Replay)]
    ensures Memory.Answer(map[], 1, key, -1, -2) == Fresh
  {
    var c := Memory.Call(key, -1, -2);
    Memory.PlaySnoc(1, [], c);
    Memory.PlaySnoc(1, [c], c);
    assert [] + [c] == [c] && [c] + [c] == [c, c];
    var none: Memory.Entries, one: Memory.Entries := map[], map[key := -1];
    assert Memory.Retain(none, -2) == none && Memory.Retain(one, -2) == one;
    assert Memory.Next(none, 1, key, -1, -2) == one;
  }

  /** A store opened on an empty directory says what an empty table says. */
  lemma OpenedEmpty(v: map<string, string>)
    requires NoPending(v) && Keeps(map[], v)
    ensures Coupled(map[], v)
  {
  }

  /** Both stores take the same calls. While no directory call has failed, the file store gives the in-memory
      store's answers, call by call, until a negative expiry is answered `Fresh`, and errors from then on. */
  method RunBoth(file: Store, memory: Memory.InMemoryReplayStore, calls: seq<Memory.Call>)
      returns (answers: seq<Status>, expected: seq<Event>)
    requires file.Ready(Idle) && file.capacity == memory.capacity
    requires Coupled(memory.entries, View(file.disk)) && Orderly(View(file.disk))
    requires Memory.Ordered(calls) && (calls != [] ==> file.world.clock <= calls[0].now)
    modifies file, memory
    ensures |answers| == |expected| == |calls|
    ensures file.Smooth(old(file.tick), file.tick) ==> forall i :: 0 <= i < |calls| ==>
              answers[i] == if Poisoned(expected, i) then Failed else expected[i].status
    ensures file.Smooth(old(file.tick), file.tick) ==> Parallel(expected, memory.entries, View(file.disk))
  {
    hide Coupled, View, Memory.Answer, Memory.Next, AnswerOn, NextOn, Orderly, NoPending, KeepsStrange, Poisoned,
         Parallel;
    answers, expected := [], [];
    StartsParallel(memory.entries, View(file.disk));
    for i := 0 to |calls|
      invariant old(file.tick) <= file.tick
      invariant file.Ready(Idle) && |answers| == |expected| == i
      invariant i < |calls| ==> file.world.clock <= calls[i].now
      invariant file.Smooth(old(file.tick), file.tick) ==> Parallel(expected, memory.entries, View(file.disk))
      invariant file.Smooth(old(file.tick), file.tick) ==> forall k :: 0 <= k < i ==>
                  answers[k] == if Poisoned(expected, k) then Failed else expected[k].status
    {
      var c := calls[i];
      ghost var v, entries := View(file.disk), memory.entries;
      var answer := file.CheckAndRecord(c.key, c.expiry, c.now);
      var should := memory.CheckAndRecord(c.key, c.expiry, c.now);
      var e := Event(c.key, c.expiry, c.now, should);
      if file.Smooth(old(file.tick), file.tick) {
        CallsAgree(expected, entries, v, file.capacity, c, answer, View(file.disk));
        PoisonSnoc(expected, e);
      }
      answers, expected := answers + [answer], expected + [e];
    }
  }

  lemma StartsParallel(entries: Memory.Entries, v: map<string, string>)
    requires Coupled(entries, v) && Orderly(v)
    ensures Parallel([], entries, v)
  {
  }

  /** After a `Fresh` answer every marker is readable exactly when the expiry is not negative. */
  lemma OrderKeptIffNonNegative(v: map<string, string>, capacity: nat, op: Op)
    requires Orderly(v) && AnswerOn(v, capacity, op).Fresh?
    ensures Orderly(NextOn(v, capacity, op)) <==> 0 <= op.expiry
  {
    var own := NameFor(op.key);
    var u := NextOn(v, capacity, op);
    MarkerReads(op.expiry);
    NamesDisjoint(own);
    assert own in u && u[own] == MarkerText(op.expiry);
    if Orderly(u) {
      assert Known(own, u[own]);
    }
  }

  /** Every file but pending ones is still there with the same bytes, and only the lock file is new. */
  predicate Keeps(v: map<string, string>, v': map<string, string>) {
    && (forall n :: n in v && !IsPendingName(n) ==> n in v' && v'[n] == v[n])
    && (forall n :: n in v' ==> n in v || n == LOCK_NAME)
  }

  lemma LockFileKeeps(v: map<string, string>)
    ensures Keeps(v, v) && (LOCK_NAME !in v ==> Keeps(v, v[LOCK_NAME := ""]))
  {
  }

  lemma ScavengeStarts(v: map<string, string>)
    ensures PendingWithin(v, v.Keys) && Keeps(v, v)
  {
  }

  lemma ScavengeKeeps(v: map<string, string>, u: map<string, string>, todo: set<string>, name: string)
    requires PendingWithin(u, todo) && Keeps(v, u)
    ensures IsPendingName(name) ==> PendingWithin(u - {name}, todo - {name}) && Keeps(v, u - {name})
    ensures !IsPendingName(name) ==> PendingWithin(u, todo - {name})
    ensures name in todo && IsPendingName(name) ==> name in u
  {
  }

  lemma ScavengeEnds(v: map<string, string>)
    ensures PendingWithin(v, {}) ==> NoPending(v)
  {
  }

  /** The pending files still to be removed. */
  predicate PendingWithin(v: map<string, string>, todo: set<string>) {
    && (forall n :: n in v && IsPendingName(n) ==> n in todo)
    && (forall n :: n in todo && IsPendingName(n) ==> n in v)
  }
}
