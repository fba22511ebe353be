/** Acceptance over whole runs, section 11.1 of RFC 9449: the verifier's window and the store's
    records fit together (crates/keylix-dpop/src/proof.rs, lines 341 to 425). */
module Acceptance {
  import opened Text
  import opened ReplayLog
  import opened RequestTarget
  import opened DpopProof
  import opened ReplayMachine
  import CrashSafety
  import Memory = MemoryReplay

  /** One `verify` call: both clock readings, and what the store answers when it is asked. */
  datatype Attempt = Attempt(proof: Proof, request: Request, now: Option<I64>, storeNow: I64, status: Status)

  function AdmitOf(ports: Ports, policy: Policy, a: Attempt): Result<(ReplayKey, I64)> {
    Admit(ports, policy, a.proof, a.request, a.now)
  }

  predicate Accepted(ports: Ports, policy: Policy, a: Attempt) {
    AdmitOf(ports, policy, a).Ok? && Conclude(ports, a.proof, a.request, a.status).Ok?
  }

  function AskedEvent(ports: Ports, policy: Policy, a: Attempt): Event
    requires AdmitOf(ports, policy, a).Ok?
  {
    var (key, expiry) := AdmitOf(ports, policy, a).value;
    Event(key, expiry, a.storeNow, a.status)
  }

  /** What the store sees of a run. */
  function StoreLog(ports: Ports, policy: Policy, run: seq<Attempt>): seq<Event> {
    if run == [] then []
    else
      var n := |run| - 1;
      StoreLog(ports, policy, run[..n]) +
      if AdmitOf(ports, policy, run[n]).Ok? then [AskedEvent(ports, policy, run[n])] else []
  }

  /** Where the store's log holds the event of an attempt. */
  lemma {:induction false} LogPosition(ports: Ports, policy: Policy, run: seq<Attempt>, i: nat)
    requires i < |run| && AdmitOf(ports, policy, run[i]).Ok?
    ensures var k := |StoreLog(ports, policy, run[..i])|;
            k < |StoreLog(ports, policy, run)| && StoreLog(ports, policy, run)[k] == AskedEvent(ports, policy, run[i])
  {
    hide AdmitOf, AskedEvent;
    var n := |run| - 1;
    if i < n {
      LogPosition(ports, policy, run[..n], i);
      assert run[..n][..i] == run[..i];
    }
  }

  lemma {:induction false} LogGrows(ports: Ports, policy: Policy, run: seq<Attempt>, i: nat, j: nat)
    requires i < j <= |run| && AdmitOf(ports, policy, run[i]).Ok?
    ensures |StoreLog(ports, policy, run[..i])| < |StoreLog(ports, policy, run[..j])|
  {
    hide AdmitOf, AskedEvent;
    assert run[..j][..j - 1] == run[..j - 1];
    if i < j - 1 {
      LogGrows(ports, policy, run, i, j - 1);
    }
  }

  /** With any store whose log is sound, two acceptances of one identity are separated by the end of
      the first proof's window. */
  lemma AcceptancesApart(ports: Ports, policy: Policy, run: seq<Attempt>, i: nat, j: nat)
    requires AtMostOnce(StoreLog(ports, policy, run))
    requires i < j < |run| && Accepted(ports, policy, run[i]) && Accepted(ports, policy, run[j])
    requires IdentityOf(ports, run[i].proof, run[i].request) == IdentityOf(ports, run[j].proof, run[j].request)
    ensures run[i].proof.claims.iat as int + policy.maxAge as int < run[j].storeNow
  {
    LogPosition(ports, policy, run, i);
    LogPosition(ports, policy, run, j);
    LogGrows(ports, policy, run, i, j);
    AdmittedKey(ports, policy, run[i]);
    AdmittedKey(ports, policy, run[j]);
  }

  lemma AdmittedKey(ports: Ports, policy: Policy, a: Attempt)
    requires AdmitOf(ports, policy, a).Ok?
    ensures ReplayKeyOf(ports, IdentityOf(ports, a.proof, a.request)) == Ok(AdmitOf(ports, policy, a).value.0)
    ensures AdmitOf(ports, policy, a).value.1 == a.proof.claims.iat as int + policy.maxAge as int
  {
    hide NormalizeTarget, ReplayKeyOf, IdentityOf;
  }

  /** An admitted proof fixes the method and target of its request. */
  lemma AdmittedRequest(ports: Ports, policy: Policy, a: Attempt)
    requires AdmitOf(ports, policy, a).Ok?
    ensures a.request.verb == a.proof.claims.htm
    ensures NormalizeTarget(a.proof.claims.htu, ports.v6) == Some(a.request.target)
  {
    hide NormalizeTarget, ReplayKeyOf;
  }

  /** One proof is accepted at most once in any run against a sound store, for whatever requests it
      is presented with. */
  lemma ProofAcceptedOnce(ports: Ports, policy: Policy, run: seq<Attempt>, i: nat, j: nat)
    requires AtMostOnce(StoreLog(ports, policy, run)) && Timely(StoreLog(ports, policy, run))
    requires i < j < |run| && run[i].proof == run[j].proof
    ensures !(Accepted(ports, policy, run[i]) && Accepted(ports, policy, run[j]))
  {
    hide Admit, NormalizeTarget, StoreLog, ReplayKeyOf;
    if Accepted(ports, policy, run[i]) && Accepted(ports, policy, run[j]) {
      AdmittedRequest(ports, policy, run[i]);
      AdmittedRequest(ports, policy, run[j]);
      AcceptancesApart(ports, policy, run, i, j);
      LogPosition(ports, policy, run, j);
      AdmittedKey(ports, policy, run[j]);
    }
  }

  // ---- The two stores ----

  function CallsOf(ports: Ports, policy: Policy, run: seq<Attempt>): seq<Memory.Call> {
    if run == [] then []
    else
      var n := |run| - 1;
      CallsOf(ports, policy, run[..n]) +
      if AdmitOf(ports, policy, run[n]).Ok? then
        var (key, expiry) := AdmitOf(ports, policy, run[n]).value;
        [Memory.Call(key, expiry, run[n].storeNow)]
      else []
  }

  /** Against the in-memory store with clock readings in lock order. */
  lemma MemoryAcceptedOnce(ports: Ports, policy: Policy, run: seq<Attempt>, capacity: nat, i: nat, j: nat)
    requires Memory.Ordered(CallsOf(ports, policy, run))
    requires StoreLog(ports, policy, run) == Memory.Play(capacity, CallsOf(ports, policy, run)).0
    requires i < j < |run| && run[i].proof == run[j].proof
    ensures !(Accepted(ports, policy, run[i]) && Accepted(ports, policy, run[j]))
  {
    Memory.PlaySafe(capacity, CallsOf(ports, policy, run));
    ProofAcceptedOnce(ports, policy, run, i, j);
  }

  // ---- Each refusal of the store, over runs ----

  /** What was logged before an attempt is the log of the run before it. */
  lemma {:induction false} LogPrefix(ports: Ports, policy: Policy, run: seq<Attempt>, i: nat)
    requires i <= |run|
    ensures StoreLog(ports, policy, run[..i]) <= StoreLog(ports, policy, run)
  {
    hide AdmitOf, AskedEvent;
    if i < |run| {
      var n := |run| - 1;
      LogPrefix(ports, policy, run[..n], i);
      assert run[..n][..i] == run[..i];
    } else {
      assert run[..i] == run;
    }
  }

  /** Every logged event is a call with its key, expiry and clock reading. */
  lemma {:induction false} CallsLogged(ports: Ports, policy: Policy, run: seq<Attempt>)
    ensures var log, calls := StoreLog(ports, policy, run), CallsOf(ports, policy, run);
            |log| == |calls| && forall k :: 0 <= k < |log| ==>
                calls[k] == Memory.Call(log[k].key, log[k].expiry, log[k].now)
  {
    hide AdmitOf;
    if run != [] {
      CallsLogged(ports, policy, run[..|run| - 1]);
    }
  }

  /** An earlier attempt of the run was accepted with this key, and its record is in force at `now`. */
  predicate AcceptedBefore(ports: Ports, policy: Policy, run: seq<Attempt>, i: nat, key: ReplayKey, now: I64)
    requires i <= |run|
  {
    exists j :: 0 <= j < i && Accepted(ports, policy, run[j]) && AdmitOf(ports, policy, run[j]).value.0 == key
                && now <= run[j].proof.claims.iat as int + policy.maxAge as int
  }

  lemma InForceMeans(ports: Ports, policy: Policy, run: seq<Attempt>, i: nat, key: ReplayKey, now: I64)
    requires i <= |run|
    ensures key in Memory.InForce(StoreLog(ports, policy, run[..i]), now) <==>
            AcceptedBefore(ports, policy, run, i, key, now)
  {
    hide Admit, StoreLog;
    var log := StoreLog(ports, policy, run[..i]);
    if key in Memory.InForce(log, now) {
      var e :| e in log && e.status.Fresh? && now <= e.expiry && e.key == key;
      var j := LogSource(ports, policy, run[..i], e);
      AdmittedKey(ports, policy, run[j]);
      assert run[..i][j] == run[j];
    }
    if AcceptedBefore(ports, policy, run, i, key, now) {
      var j :| 0 <= j < i && Accepted(ports, policy, run[j]) && AdmitOf(ports, policy, run[j]).value.0 == key
               && now <= run[j].proof.claims.iat as int + policy.maxAge as int;
      AdmittedKey(ports, policy, run[j]);
      LogPosition(ports, policy, run[..i], j);
      assert AskedEvent(ports, policy, run[j]) in log;
    }
  }

  /** Against the in-memory store, when a proof has passed every check before the store: it is a detected replay exactly
      when its key was accepted before within a record still in force, and the store is unavailable exactly when the
      record would be stale or, for a key not in force, as many keys are in force as the capacity. */
  lemma StoreRefusals(ports: Ports, policy: Policy, run: seq<Attempt>, capacity: nat, i: nat)
    requires Memory.Ordered(CallsOf(ports, policy, run))
    requires StoreLog(ports, policy, run) == Memory.Play(capacity, CallsOf(ports, policy, run)).0
    requires i < |run| && AdmitOf(ports, policy, run[i]).Ok?
    ensures var a, (key, expiry) := run[i], AdmitOf(ports, policy, run[i]).value;
            var r, again := Conclude(ports, a.proof, a.request, a.status),
                AcceptedBefore(ports, policy, run, i, key, a.storeNow);
            var full := |Memory.InForce(StoreLog(ports, policy, run[..i]), a.storeNow)| >= capacity;
            && (r == Err(ReplayDetected) <==> a.storeNow <= expiry && again)
            && (r == Err(ReplayStoreUnavailable) <==> expiry < a.storeNow || (!again && full))
            && (r.Ok? <==> a.storeNow <= expiry && !again && !full)
  {
    hide Admit, StoreLog, CallsOf, Memory.Play, Memory.InForce, AcceptedBefore;
    var (key, expiry) := AdmitOf(ports, policy, run[i]).value;
    var calls, log, k := CallsOf(ports, policy, run), StoreLog(ports, policy, run), |StoreLog(ports, policy, run[..i])|;
    LogPosition(ports, policy, run, i);
    LogPrefix(ports, policy, run, i);
    CallsLogged(ports, policy, run);
    Memory.PlayDecides(capacity, calls, k);
    assert log[..k] == StoreLog(ports, policy, run[..i]);
    assert calls[k] == Memory.Call(key, expiry, run[i].storeNow);
    InForceMeans(ports, policy, run, i, key, run[i].storeNow);
  }

  /** `picks` lists, in increasing order, where the elements of `a` stand in `b`. */
  predicate PickedFrom<T(==)>(a: seq<T>, b: seq<T>, picks: seq<nat>) {
    && |picks| == |a|
    && (forall i :: 0 <= i < |a| ==> picks[i] < |b| && b[picks[i]] == a[i])
    && (forall i, j :: 0 <= i < j < |a| ==> picks[i] < picks[j])
  }

  /** Against the file store, over kills and power losses: the verifiers that talked to the
      directory saw some of its answers, others were lost with the process that asked. */
  lemma CrashAcceptedOnce(ports: Ports, policy: Policy, run: seq<Attempt>, ws: seq<World>, ls: seq<Label>,
                          picks: seq<nat>, i: nat, j: nat)
    requires Run(ws, ls) && Init(ws[0])
    requires PickedFrom(StoreLog(ports, policy, run), ws[|ls|].log, picks)
    requires i < j < |run| && run[i].proof == run[j].proof
    ensures !(Accepted(ports, policy, run[i]) && Accepted(ports, policy, run[j]))
  {
    CrashSafety.CrashSafe(ws, ls, |ls|);
    PickedSound(StoreLog(ports, policy, run), ws[|ls|].log, picks);
    ProofAcceptedOnce(ports, policy, run, i, j);
  }

  /** Some answers of a sound log, in order, are a sound log. */
  lemma PickedSound(a: seq<Event>, b: seq<Event>, picks: seq<nat>)
    requires AtMostOnce(b) && Timely(b) && PickedFrom(a, b, picks)
    ensures AtMostOnce(a) && Timely(a)
  {
    forall x, y | 0 <= x < y < |a| && a[x].status.Fresh? && a[y].status.Fresh? && a[x].key == a[y].key
      ensures a[x].expiry < a[y].now
    {
      assert b[picks[x]] == a[x] && b[picks[y]] == a[y];
    }
    forall x | 0 <= x < |a| && a[x].status.Fresh?
      ensures a[x].now <= a[x].expiry
    {
      assert b[picks[x]] == a[x];
    }
  }

  // ---- Unused identities ----

  /** The digest has no collision among the identities of a run. */
  predicate CollisionFree(ports: Ports, ids: seq<Identity>) {
    forall i, j :: 0 <= i < |ids| && 0 <= j < |ids| && ReplayKeyOf(ports, ids[i]).Ok?
                   && ReplayKeyOf(ports, ids[i]) == ReplayKeyOf(ports, ids[j])
                   ==> Material(IdentityParts(ids[i])) == Material(IdentityParts(ids[j]))
  }

  function Identities(ports: Ports, run: seq<Attempt>): (ids: seq<Identity>)
    ensures |ids| == |run|
  {
    seq(|run|, i requires 0 <= i < |run| => IdentityOf(ports, run[i].proof, run[i].request))
  }

  lemma {:induction false} LogSource(ports: Ports, policy: Policy, run: seq<Attempt>, e: Event) returns (i: nat)
    requires e in StoreLog(ports, policy, run)
    ensures i < |run| && AdmitOf(ports, policy, run[i]).Ok? && AskedEvent(ports, policy, run[i]) == e
  {
    var n := |run| - 1;
    if AdmitOf(ports, policy, run[n]).Ok? && AskedEvent(ports, policy, run[n]) == e {
      i := n;
    } else {
      i := LogSource(ports, policy, run[..n], e);
    }
  }

  /** An identity that the run never presented is not in the store after it, so it is not taken for a
      replay. */
  lemma UnusedIdentityIsFree(ports: Ports, policy: Policy, run: seq<Attempt>, capacity: nat, id: Identity)
    requires Memory.Ordered(CallsOf(ports, policy, run))
    requires StoreLog(ports, policy, run) == Memory.Play(capacity, CallsOf(ports, policy, run)).0
    requires CollisionFree(ports, Identities(ports, run) + [id])
    requires id !in Identities(ports, run) && ReplayKeyOf(ports, id).Ok?
    ensures ReplayKeyOf(ports, id).value !in Memory.Play(capacity, CallsOf(ports, policy, run)).1
  {
    var calls := CallsOf(ports, policy, run);
    var (log, entries) := Memory.Play(capacity, calls);
    var key := ReplayKeyOf(ports, id).value;
    Memory.PlaySafe(capacity, calls);
    if key in entries {
      assert Memory.Backed(log, entries);
      var e :| e in log && e.status.Fresh? && e.key == key && e.expiry == entries[key];
      var i := LogSource(ports, policy, run, e);
      SameKeySameIdentity(ports, policy, run, i, id);
    }
  }

  lemma SameKeySameIdentity(ports: Ports, policy: Policy, run: seq<Attempt>, i: nat, id: Identity)
    requires CollisionFree(ports, Identities(ports, run) + [id])
    requires i < |run| && AdmitOf(ports, policy, run[i]).Ok?
    requires ReplayKeyOf(ports, id) == Ok(AdmitOf(ports, policy, run[i]).value.0)
    ensures id in Identities(ports, run)
  {
    hide Admit, Material, BigEndian, IdentityParts, Sized;
    var ids := Identities(ports, run) + [id];
    AdmittedKey(ports, policy, run[i]);
    assert ids[i] == IdentityOf(ports, run[i].proof, run[i].request) && ids[|run|] == id;
    assert Material(IdentityParts(ids[i])) == Material(IdentityParts(ids[|run|]));
    KeyedSized(ports, ids[i]);
    KeyedSized(ports, id);
    IdentityMaterialInjective(ids[i], id);
  }

  lemma KeyedSized(ports: Ports, id: Identity)
    requires ReplayKeyOf(ports, id).Ok?
    ensures Sized(IdentityParts(id))
  {
  }
}
