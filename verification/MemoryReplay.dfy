/** The in-memory replay store (crates/keylix-dpop/src/state.rs, lines 54 to 133). */
module MemoryReplay {
  import opened Text
  import opened ReplayLog

  type Entries = map<ReplayKey, I64>

  /** Records still in force: a record counts through its last second. */
  function Retain(entries: Entries, now: I64): Entries {
    map k | k in entries && entries[k] >= now :: entries[k]
  }

  function Answer(entries: Entries, capacity: nat, key: ReplayKey, expiry: I64, now: I64): Status {
    var kept := Retain(entries, now);
    if expiry < now then Failed
    else if key in kept then Replay
    else if |kept| >= capacity then Failed
    else Fresh
  }

  function Next(entries: Entries, capacity: nat, key: ReplayKey, expiry: I64, now: I64): Entries {
    if expiry < now then entries
    else if Answer(entries, capacity, key, expiry, now).Fresh? then Retain(entries, now)[key := expiry]
    else Retain(entries, now)
  }

  class InMemoryReplayStore {
    const capacity: nat
    var entries: Entries

    constructor (capacity: nat)
      ensures this.capacity == capacity && entries == map[]
    {
      this.capacity := capacity;
      entries := map[];
    }

    /** `new`, which refuses a capacity of zero. */
    static method New(capacity: nat) returns (store: Option<InMemoryReplayStore>)
      ensures store.None? <==> capacity == 0
      ensures store.Some? ==>
                fresh(store.value) && store.value.capacity == capacity && store.value.entries == map[]
    {
      if capacity == 0 {
        return None;
      }
      var made := new InMemoryReplayStore(capacity);
      return Some(made);
    }

    /** `check_and_record` with the clock reading as an argument. */
    method CheckAndRecord(key: ReplayKey, expiry: I64, now: I64) returns (status: Status)
      modifies this`entries
      ensures status == Answer(old(entries), capacity, key, expiry, now)
      ensures entries == Next(old(entries), capacity, key, expiry, now)
    {
      if expiry < now {
        return Failed;
      }
      entries := map k | k in entries && entries[k] >= now :: entries[k];
      if key in entries {
        return Replay;
      }
      if |entries| >= capacity {
        return Failed;
      }
      entries := entries[key := expiry];
      return Fresh;
    }
  }

  // ---- Runs ----

  datatype Call = Call(key: ReplayKey, expiry: I64, now: I64)

  /** The log and the entries after a sequence of calls on an empty store. */
  function Play(capacity: nat, calls: seq<Call>): (r: (seq<Event>, Entries))
    ensures |r.0| == |calls|
  {
    if calls == [] then ([], map[])
    else
      var c := calls[|calls| - 1];
      var (log, entries) := Play(capacity, calls[..|calls| - 1]);
      (log + [EventOf(entries, capacity, c)],
       Next(entries, capacity, c.key, c.expiry, c.now))
  }

  lemma PlaySnoc(capacity: nat, calls: seq<Call>, c: Call)
    ensures var (log, entries) := Play(capacity, calls);
            Play(capacity, calls + [c]) ==
            (log + [EventOf(entries, capacity, c)], Next(entries, capacity, c.key, c.expiry, c.now))
  {
    assert (calls + [c])[..|calls|] == calls;
  }

  /** Clock readings do not decrease in lock order. */
  predicate Ordered(calls: seq<Call>) {
    forall i, j :: 0 <= i < j < |calls| ==> calls[i].now <= calls[j].now
  }

  /** Everything declared fresh and still in force at `now` is held with its expiry. */
  predicate Held(log: seq<Event>, entries: Entries, now: I64) {
    forall e :: e in log && e.status.Fresh? && now <= e.expiry ==> e.key in entries && entries[e.key] == e.expiry
  }

  /** The store holds exactly the records in force: what was declared fresh and has not lapsed at
      `now`, and nothing that was not declared fresh. Capacity is never exceeded. */
  predicate Faithful(log: seq<Event>, entries: Entries, capacity: nat, now: I64) {
    AtMostOnce(log) && Timely(log) && |entries| <= capacity && Held(log, entries, now) && Backed(log, entries)
  }

  function EventOf(entries: Entries, capacity: nat, c: Call): Event {
    Event(c.key, c.expiry, c.now, Answer(entries, capacity, c.key, c.expiry, c.now))
  }

  lemma StepFaithful(log: seq<Event>, entries: Entries, capacity: nat, c: Call, now: I64)
    requires Faithful(log, entries, capacity, now) && now <= c.now
    ensures var after := Next(entries, capacity, c.key, c.expiry, c.now);
            Faithful(log + [EventOf(entries, capacity, c)], after, capacity, c.now)
  {
    RetainSmaller(entries, c.now);
    NextBacked(log, entries, capacity, c);
    NextHeld(log, entries, capacity, c, now);
    hide Backed;
    AppendEvent(log, EventOf(entries, capacity, c));
  }

  lemma NextHeld(log: seq<Event>, entries: Entries, capacity: nat, c: Call, now: I64)
    requires Held(log, entries, now) && now <= c.now
    ensures Held(log, Retain(entries, c.now), c.now)
    ensures Held(log + [EventOf(entries, capacity, c)], Next(entries, capacity, c.key, c.expiry, c.now), c.now)
  {
  }

  function LastNow(calls: seq<Call>): I64 {
    if calls == [] then I64_MIN else calls[|calls| - 1].now
  }

  /** Every run of the store is faithful. */
  lemma {:induction false} PlaySafe(capacity: nat, calls: seq<Call>)
    requires Ordered(calls)
    ensures Faithful(Play(capacity, calls).0, Play(capacity, calls).1, capacity, LastNow(calls))
  {
    if calls != [] {
      var n := |calls| - 1;
      PlaySafe(capacity, calls[..n]);
      var (log, entries) := Play(capacity, calls[..n]);
      StepFaithful(log, entries, capacity, calls[n], LastNow(calls[..n]));
    }
  }

  /** The keys declared fresh in a log whose records are in force. */
  function InForce(log: seq<Event>, now: I64): set<ReplayKey> {
    set e | e in log && e.status.Fresh? && now <= e.expiry :: e.key
  }

  /** The answer that the history of a store dictates. */
  function ByHistory(log: seq<Event>, capacity: nat, c: Call): Status {
    if c.expiry < c.now then Failed
    else if c.key in InForce(log, c.now) then Replay
    else if |InForce(log, c.now)| >= capacity then Failed
    else Fresh
  }

  lemma HistoryDecides(log: seq<Event>, entries: Entries, capacity: nat, c: Call, now: I64)
    requires Faithful(log, entries, capacity, now) && now <= c.now
    ensures Answer(entries, capacity, c.key, c.expiry, c.now) == ByHistory(log, capacity, c)
  {
    var kept := Retain(entries, c.now);
    forall k | k in kept.Keys ensures k in InForce(log, c.now) {
      assert k in entries;
      var e :| e in log && e.status.Fresh? && e.key == k && e.expiry == entries[k];
    }
    forall k | k in InForce(log, c.now) ensures k in kept.Keys {
      var e :| e in log && e.status.Fresh? && c.now <= e.expiry && e.key == k;
    }
    assert kept.Keys == InForce(log, c.now);
    assert |kept| == |kept.Keys|;
  }

  /** Every answer of a run is the one its history dictates: replay exactly when the key was declared fresh
      within a record still in force, refusal exactly for a stale expiry or a full store, fresh otherwise. */
  lemma {:induction false} PlayDecides(capacity: nat, calls: seq<Call>, i: nat)
    requires Ordered(calls) && i < |calls|
    ensures var log := Play(capacity, calls).0; log[i].status == ByHistory(log[..i], capacity, calls[i])
  {
    hide Answer, Next, ByHistory, Faithful;
    var n := |calls| - 1;
    var (log, entries) := Play(capacity, calls[..n]);
    assert Play(capacity, calls).0 == log + [EventOf(entries, capacity, calls[n])];
    if i < n {
      PlayDecides(capacity, calls[..n], i);
      assert Play(capacity, calls).0[..i] == log[..i];
    } else {
      PlaySafe(capacity, calls[..n]);
      HistoryDecides(log, entries, capacity, calls[n], LastNow(calls[..n]));
      assert Play(capacity, calls).0[..n] == log;
    }
  }

  /** Every entry was declared fresh with that expiry. */
  predicate Backed(log: seq<Event>, entries: Entries) {
    forall k :: k in entries ==> exists e :: e in log && e.status.Fresh? && e.key == k && e.expiry == entries[k]
  }

  lemma NextBacked(log: seq<Event>, entries: Entries, capacity: nat, c: Call)
    requires Backed(log, entries)
    ensures Backed(log + [EventOf(entries, capacity, c)],
                   Next(entries, capacity, c.key, c.expiry, c.now))
  {
  }

  lemma RetainSmaller(entries: Entries, now: I64)
    ensures |Retain(entries, now)| <= |entries|
  {
    var kept := Retain(entries, now);
    assert kept.Keys <= entries.Keys;
    SubsetSize(kept.Keys, entries.Keys);
  }

  lemma {:induction false} SubsetSize<T>(a: set<T>, b: set<T>)
    requires a <= b
    ensures |a| <= |b|
  {
    assert b == a + (b - a);
  }
}
