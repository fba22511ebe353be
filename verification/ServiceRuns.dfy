/** The verifier application over whole runs: however often and with whatever requests a proof comes back, it is
    accepted at most once, over the in-memory store and over the file store
    (crates/keylix-verifier/src/lib.rs, lines 206 to 279; crates/keylix-verifier/src/main.rs, lines 173 to 198). */
module ServiceRuns {
  import opened Text
  import opened ReplayLog
  import opened DpopProof
  import opened RequestTarget
  import opened VerifierApp
  import opened Acceptance
  import Nonce = NonceStores
  import Memory = MemoryReplay
  import Machine = ReplayMachine
  import CrashSafety

  // ---- Any replay store ----

  /** One request, with the nonce state that it meets and the answer of the replay store if it is asked. */
  datatype Served = Served(call: Call, nonces: Nonce.Nonces, status: Status)

  /** The proof and the request that a call gets as far as verifying. */
  function Reached(s: Service, nonces: Nonce.Nonces, call: Call): Option<(Proof, Request)> {
    if Precheck(s, call.request).Some? then None
    else
      match RequiredNonce(s, nonces, call.io)
      case None => None
      case Some(nonce) =>
        match Prepared(s, call.request, nonce)
        case Err(_) => None
        case Ok(both) => Some(both)
  }

  /** The end of `verify`, from the proof on. */
  function Verdict(s: Service, x: Served, proof: Proof, request: Request): AppResult {
    match Admit(s.ports, s.policy, proof, request, x.call.now)
    case Err(e) => Reject(e, request.nonce)
    case Ok(_) =>
      match Conclude(s.ports, proof, request, x.status)
      case Err(e) => Reject(e, request.nonce)
      case Ok(verified) => Bind(s, x.call.request, verified)
  }

  /** The result of `VerifierApplication::verify` over any replay store. */
  function Reply(s: Service, x: Served): AppResult {
    match Precheck(s, x.call.request)
    case Some(failure) => Rejected(failure, None)
    case None =>
      match RequiredNonce(s, x.nonces, x.call.io)
      case None => Rejected(Failure.NonceStateUnavailable, None)
      case Some(nonce) =>
        match Prepared(s, x.call.request, nonce)
        case Err(e) => Rejected(FailureOf(e), None)
        case Ok((proof, request)) => Verdict(s, x, proof, request)
  }

  /** The verification that a request leads to, if any. */
  function AttemptAt(s: Service, x: Served): (r: seq<Attempt>)
    ensures |r| <= 1
  {
    match Reached(s, x.nonces, x.call)
    case None => []
    case Some((proof, request)) => [Attempt(proof, request, x.call.now, x.call.storeNow, x.status)]
  }

  /** All verifications of a run. */
  function Attempts(s: Service, xs: seq<Served>): seq<Attempt> {
    if xs == [] then [] else Attempts(s, xs[..|xs| - 1]) + AttemptAt(s, xs[|xs| - 1])
  }

  /** Where the verification of a request stands among them. */
  lemma {:induction false} AttemptPosition(s: Service, xs: seq<Served>, i: nat)
    requires i < |xs| && AttemptAt(s, xs[i]) != []
    ensures var k := |Attempts(s, xs[..i])|;
            && k < |Attempts(s, xs)| && [Attempts(s, xs)[k]] == AttemptAt(s, xs[i]) && k < |Attempts(s, xs[..i + 1])|
  {
    hide AttemptAt;
    var n := |xs| - 1;
    if i < n {
      assert xs[..n][..i] == xs[..i] && xs[..n][..i + 1] == xs[..i + 1];
      AttemptPosition(s, xs[..n], i);
    } else {
      assert xs[..n + 1] == xs;
    }
  }

  lemma {:induction false} AttemptsGrow(s: Service, xs: seq<Served>, i: nat, j: nat)
    requires i <= j <= |xs|
    ensures |Attempts(s, xs[..i])| <= |Attempts(s, xs[..j])|
  {
    hide AttemptAt;
    if i < j {
      AttemptsGrow(s, xs, i, j - 1);
      assert xs[..j][..j - 1] == xs[..j - 1];
    }
  }

  lemma VerdictAccepts(s: Service, x: Served, proof: Proof, request: Request)
    requires Marks(Verdict(s, x, proof, request))
    ensures Accepted(s.ports, s.policy, Attempt(proof, request, x.call.now, x.call.storeNow, x.status))
  {
    hide Admit, Marks, Reject, Bind;
    var admitted := Admit(s.ports, s.policy, proof, request, x.call.now);
    if admitted.Err? {
      RejectDoesNotMark(admitted.error, request.nonce);
    } else {
      var concluded := Conclude(s.ports, proof, request, x.status);
      if concluded.Err? {
        RejectDoesNotMark(concluded.error, request.nonce);
      }
    }
  }

  /** A result that leaves a marker comes from an accepted proof. */
  lemma MarksAccepted(s: Service, x: Served)
    requires Marks(Reply(s, x))
    ensures var made := AttemptAt(s, x);
            && made != [] && ParseHeader(s, x.call.request.dpopProof) == Ok(made[0].proof)
            && made[0].request.verb == x.call.request.verb
            && NormalizeTarget(x.call.request.target, s.ports.v6) == Some(made[0].request.target)
            && made[0].storeNow == x.call.storeNow
            && Accepted(s.ports, s.policy, made[0])
  {
    hide Verdict, FailureOf, RequiredNonce, Accepted;
    if Precheck(s, x.call.request).None? && RequiredNonce(s, x.nonces, x.call.io).Some? {
      var prepared := Prepared(s, x.call.request, RequiredNonce(s, x.nonces, x.call.io).value);
      match prepared
      case Ok((proof, request)) => VerdictAccepts(s, x, proof, request);
      case Err(e) => RejectDoesNotMark(e, None);
    }
  }

  /** Over any replay store with a sound log, of two requests with one proof at most one is accepted. */
  lemma AcceptedOnce(s: Service, xs: seq<Served>, i: nat, j: nat)
    requires var log := StoreLog(s.ports, s.policy, Attempts(s, xs)); AtMostOnce(log) && Timely(log)
    requires i < j < |xs|
    requires ParseHeader(s, xs[i].call.request.dpopProof) == ParseHeader(s, xs[j].call.request.dpopProof)
    ensures !(Marks(Reply(s, xs[i])) && Marks(Reply(s, xs[j])))
  {
    hide Reply, Marks, ParseHeader, Accepted, AttemptAt, Attempts, StoreLog, AtMostOnce, Timely;
    if Marks(Reply(s, xs[i])) && Marks(Reply(s, xs[j])) {
      MarksAccepted(s, xs[i]);
      MarksAccepted(s, xs[j]);
      AttemptPosition(s, xs, i);
      AttemptPosition(s, xs, j);
      AttemptsGrow(s, xs, i + 1, j);
      var run, x, y := Attempts(s, xs), |Attempts(s, xs[..i])|, |Attempts(s, xs[..j])|;
      assert run[x] == [run[x]][0] && run[y] == [run[y]][0];
      ProofAcceptedOnce(s.ports, s.policy, run, x, y);
    }
  }

  /** Two requests with one identity: the same key, method, target and identifier, in proofs that may differ. */
  predicate SameIdentity(s: Service, a: Call, b: Call) {
    var p, q := ParseHeader(s, a.request.dpopProof), ParseHeader(s, b.request.dpopProof);
    && p.Ok? && q.Ok? && s.ports.thumbprint(p.value.jwk) == s.ports.thumbprint(q.value.jwk)
    && p.value.claims.jti == q.value.claims.jti && a.request.verb == b.request.verb
    && NormalizeTarget(a.request.target, s.ports.v6) == NormalizeTarget(b.request.target, s.ports.v6)
  }

  /** A proof signed anew with the same identity is accepted only after the first one's age window. */
  lemma AcceptedApart(s: Service, xs: seq<Served>, i: nat, j: nat)
    requires AtMostOnce(StoreLog(s.ports, s.policy, Attempts(s, xs)))
    requires i < j < |xs| && SameIdentity(s, xs[i].call, xs[j].call)
    requires Marks(Reply(s, xs[i])) && Marks(Reply(s, xs[j]))
    ensures var first := ParseHeader(s, xs[i].call.request.dpopProof).value.claims;
            first.iat as int + s.policy.maxAge as int < xs[j].call.storeNow
  {
    hide Reply, Marks, ParseHeader, Accepted, AttemptAt, Attempts, StoreLog, AtMostOnce, NormalizeTarget;
    MarksAccepted(s, xs[i]);
    MarksAccepted(s, xs[j]);
    AttemptPosition(s, xs, i);
    AttemptPosition(s, xs, j);
    AttemptsGrow(s, xs, i + 1, j);
    var run, x, y := Attempts(s, xs), |Attempts(s, xs[..i])|, |Attempts(s, xs[..j])|;
    assert run[x] == [run[x]][0] && run[y] == [run[y]][0];
    AcceptancesApart(s.ports, s.policy, run, x, y);
  }

  // ---- The file store ----

  /** Over the file store: when the answers that the application got are some of the answers of a directory, in
      order, one proof is accepted at most once. The directory may see any failures, kills, power losses and
      restarts of any number of processes, and nonce state may be lost with them. */
  lemma VerifiedOnceOnDisk(s: Service, xs: seq<Served>, ws: seq<Machine.World>, ls: seq<Machine.Label>,
                           picks: seq<nat>, i: nat, j: nat)
    requires Machine.Run(ws, ls) && Machine.Init(ws[0])
    requires PickedFrom(StoreLog(s.ports, s.policy, Attempts(s, xs)), ws[|ls|].log, picks)
    requires i < j < |xs|
    requires ParseHeader(s, xs[i].call.request.dpopProof) == ParseHeader(s, xs[j].call.request.dpopProof)
    ensures !(Marks(Reply(s, xs[i])) && Marks(Reply(s, xs[j])))
  {
    hide Reply, Marks, ParseHeader, Attempts, StoreLog, AtMostOnce, Timely;
    CrashSafety.CrashSafe(ws, ls, |ls|);
    PickedSound(StoreLog(s.ports, s.policy, Attempts(s, xs)), ws[|ls|].log, picks);
    AcceptedOnce(s, xs, i, j);
  }

  /** So it is with the file store. */
  lemma AcceptedApartOnDisk(s: Service, xs: seq<Served>, ws: seq<Machine.World>, ls: seq<Machine.Label>,
                            picks: seq<nat>, i: nat, j: nat)
    requires Machine.Run(ws, ls) && Machine.Init(ws[0])
    requires PickedFrom(StoreLog(s.ports, s.policy, Attempts(s, xs)), ws[|ls|].log, picks)
    requires i < j < |xs| && SameIdentity(s, xs[i].call, xs[j].call)
    requires Marks(Reply(s, xs[i])) && Marks(Reply(s, xs[j]))
    ensures var first := ParseHeader(s, xs[i].call.request.dpopProof).value.claims;
            first.iat as int + s.policy.maxAge as int < xs[j].call.storeNow
  {
    hide Reply, Marks, ParseHeader, Attempts, StoreLog, AtMostOnce, Timely, NormalizeTarget;
    CrashSafety.CrashSafe(ws, ls, |ls|);
    PickedSound(StoreLog(s.ports, s.policy, Attempts(s, xs)), ws[|ls|].log, picks);
    AcceptedApart(s, xs, i, j);
  }

  // ---- The in-memory store ----

  /** What the in-memory store answers, if it is asked. */
  function AnswerFor(s: Service, st: State, call: Call): Status {
    match Reached(s, st.nonces, call)
    case None => Failed
    case Some((proof, request)) =>
      match Admit(s.ports, s.policy, proof, request, call.now)
      case Err(_) => Failed
      case Ok((key, expiry)) => Memory.Answer(st.entries, s.replayCapacity, key, expiry, call.storeNow)
  }

  /** One request of a run over the in-memory store. */
  function ServedAt(s: Service, st: State, call: Call): Served {
    Served(call, st.nonces, AnswerFor(s, st, call))
  }

  /** A run over the in-memory store as a run over a store with given answers. */
  function ServedOf(s: Service, st: State, calls: seq<Call>): (xs: seq<Served>)
    ensures |xs| == |calls|
  {
    if calls == [] then []
    else
      var n := |calls| - 1;
      ServedOf(s, st, calls[..n]) + [ServedAt(s, States(s, st, calls)[n], calls[n])]
  }

  /** One request over the in-memory store. */
  lemma ServeIsReply(s: Service, st: State, call: Call)
    ensures var (result, after) := Serve(s, st, call);
            && result == Reply(s, ServedAt(s, st, call))
            && match Reached(s, st.nonces, call)
               case None => after.entries == st.entries
               case Some((proof, request)) =>
                 var admitted := Admit(s.ports, s.policy, proof, request, call.now);
                 after.entries ==
                 if admitted.Ok?
                 then Memory.Next(st.entries, s.replayCapacity, admitted.value.0, admitted.value.1, call.storeNow)
                 else st.entries
  {
    hide Judge, Verdict, Memory.Answer, Memory.Next, FailureOf, RequiredNonce, NoncesAfter, Admit;
    if Precheck(s, call.request).None? && RequiredNonce(s, st.nonces, call.io).Some? {
      var prepared := Prepared(s, call.request, RequiredNonce(s, st.nonces, call.io).value);
      if prepared.Ok? {
        JudgeIsVerdict(s, st.entries, call, prepared.value.0, prepared.value.1, ServedAt(s, st, call));
      }
    }
  }

  lemma JudgeIsVerdict(s: Service, entries: Memory.Entries, call: Call, proof: Proof, request: Request, x: Served)
    requires x.call == call
    requires var admitted := Admit(s.ports, s.policy, proof, request, call.now);
             admitted.Ok? ==>
               x.status == Memory.Answer(entries, s.replayCapacity, admitted.value.0, admitted.value.1, call.storeNow)
    ensures var (result, after) := Judge(s, entries, call, proof, request);
            var admitted := Admit(s.ports, s.policy, proof, request, call.now);
            && result == Verdict(s, x, proof, request)
            && after == if admitted.Ok?
                        then Memory.Next(entries, s.replayCapacity, admitted.value.0, admitted.value.1, call.storeNow)
                        else entries
  {
    hide Admit, Memory.Answer, Memory.Next, Bind, Reject, Conclude;
  }

  /** The calls that one more attempt makes on the store. */
  lemma AttemptCalls(ports: Ports, policy: Policy, run: seq<Attempt>, a: Attempt)
    ensures var admitted := AdmitOf(ports, policy, a);
            && StoreLog(ports, policy, run + [a]) ==
               StoreLog(ports, policy, run) + (if admitted.Ok? then [AskedEvent(ports, policy, a)] else [])
            && CallsOf(ports, policy, run + [a]) ==
               CallsOf(ports, policy, run)
               + (if admitted.Ok? then [Memory.Call(admitted.value.0, admitted.value.1, a.storeNow)] else [])
  {
    hide AdmitOf, AskedEvent;
    assert (run + [a])[..|run|] == run;
  }

  predicate NotAfter(asked: seq<Memory.Call>, now: I64) {
    forall i :: 0 <= i < |asked| ==> asked[i].now <= now
  }

  lemma OrderedSnoc(asked: seq<Memory.Call>, c: Memory.Call)
    requires Memory.Ordered(asked) && NotAfter(asked, c.now)
    ensures Memory.Ordered(asked + [c]) && NotAfter(asked + [c], c.now)
  {
  }

  /** What the store saw of a run so far is a run of the store with these entries, ordered up to `now`. */
  predicate Played(s: Service, run: seq<Attempt>, entries: Memory.Entries, now: I64) {
    var asked := CallsOf(s.ports, s.policy, run);
    && Memory.Play(s.replayCapacity, asked) == (StoreLog(s.ports, s.policy, run), entries)
    && Memory.Ordered(asked) && NotAfter(asked, now)
  }

  lemma AttemptPlayed(s: Service, st: State, call: Call, run: seq<Attempt>)
    requires Played(s, run, st.entries, call.storeNow)
    ensures Played(s, run + AttemptAt(s, ServedAt(s, st, call)), Serve(s, st, call).1.entries, call.storeNow)
  {
    hide Serve, Admit, Memory.Answer, Memory.Next, Memory.Play, Memory.Ordered, NotAfter, StoreLog, CallsOf, Reached,
         Reply;
    ServeIsReply(s, st, call);
    var reached := Reached(s, st.nonces, call);
    match reached
    case None => assert run + [] == run;
    case Some((proof, request)) =>
      var a := Attempt(proof, request, call.now, call.storeNow, AnswerFor(s, st, call));
      AttemptCalls(s.ports, s.policy, run, a);
      var admitted := AdmitOf(s.ports, s.policy, a);
      if admitted.Ok? {
        var c := Memory.Call(admitted.value.0, admitted.value.1, a.storeNow);
        Memory.PlaySnoc(s.replayCapacity, CallsOf(s.ports, s.policy, run), c);
        OrderedSnoc(CallsOf(s.ports, s.policy, run), c);
      } else {
        assert CallsOf(s.ports, s.policy, run) + [] == CallsOf(s.ports, s.policy, run);
        assert StoreLog(s.ports, s.policy, run) + [] == StoreLog(s.ports, s.policy, run);
      }
  }

  /** The store's clock readings do not decrease in lock order. */
  predicate ClockOrdered(calls: seq<Call>) {
    forall i, j :: 0 <= i < j < |calls| ==> calls[i].storeNow <= calls[j].storeNow
  }

  lemma PlayedLater(s: Service, run: seq<Attempt>, entries: Memory.Entries, now: I64, later: I64)
    requires Played(s, run, entries, now) && now <= later
    ensures Played(s, run, entries, later)
  {
    hide CallsOf, StoreLog, Memory.Play, Memory.Ordered;
  }

  function LastNow(calls: seq<Call>): I64 {
    if calls == [] then I64_MIN else calls[|calls| - 1].storeNow
  }

  lemma NothingPlayed(s: Service)
    ensures Played(s, [], map[], I64_MIN)
  {
  }

  /** What the replay store sees of a run of the application is a run of the store. */
  lemma {:induction false} AttemptsPlayed(s: Service, st: State, calls: seq<Call>)
    requires st.entries == map[] && ClockOrdered(calls)
    ensures Played(s, Attempts(s, ServedOf(s, st, calls)), States(s, st, calls)[|calls|].entries, LastNow(calls))
  {
    hide Serve, AttemptAt, ServedAt, Played;
    if calls == [] {
      NothingPlayed(s);
    } else {
      var n := |calls| - 1;
      AttemptsPlayed(s, st, calls[..n]);
      StatesStep(s, st, calls, n);
      var xs, mid := ServedOf(s, st, calls), States(s, st, calls)[n];
      assert xs[..n] == ServedOf(s, st, calls[..n]);
      var run := Attempts(s, xs[..n]);
      PlayedLater(s, run, mid.entries, LastNow(calls[..n]), calls[n].storeNow);
      AttemptPlayed(s, mid, calls[n], run);
    }
  }

  lemma {:induction false} ServedIndex(s: Service, st: State, calls: seq<Call>, i: nat)
    requires i < |calls|
    ensures ServedOf(s, st, calls)[i] == ServedAt(s, States(s, st, calls)[i], calls[i])
  {
    hide Serve, ServedAt;
    var n := |calls| - 1;
    if i < n {
      ServedIndex(s, st, calls[..n], i);
    }
  }

  /** Results over the in-memory store are replies to its answers. */
  lemma ResultIsReply(s: Service, st: State, calls: seq<Call>, i: nat)
    requires i < |calls|
    ensures ResultAt(s, st, calls, i) == Reply(s, ServedOf(s, st, calls)[i])
            && ServedOf(s, st, calls)[i].call == calls[i]
  {
    hide Serve, AnswerFor, Reply, States, ServedOf;
    ServedIndex(s, st, calls, i);
    ServeIsReply(s, States(s, st, calls)[i], calls[i]);
  }

  /** Over every run of the application from an empty in-memory store, with clock readings in lock order, one proof
      is accepted at most once: of two calls that present it, at most one is verified or gets as far as the
      token's binding, whatever method, target, token or nonce they come with. */
  lemma VerifiedOnce(s: Service, st: State, calls: seq<Call>, i: nat, j: nat)
    requires st.entries == map[] && ClockOrdered(calls) && i < j < |calls|
    requires ParseHeader(s, calls[i].request.dpopProof) == ParseHeader(s, calls[j].request.dpopProof)
    ensures !(Marks(ResultAt(s, st, calls, i)) && Marks(ResultAt(s, st, calls, j)))
  {
    hide Marks, ResultAt, Reply, ParseHeader, ServedOf, Attempts, States, StoreLog, CallsOf, Memory.Play, Memory.Held,
         Memory.Backed;
    var xs := ServedOf(s, st, calls);
    AttemptsPlayed(s, st, calls);
    Memory.PlaySafe(s.replayCapacity, CallsOf(s.ports, s.policy, Attempts(s, xs)));
    ResultIsReply(s, st, calls, i);
    ResultIsReply(s, st, calls, j);
    AcceptedOnce(s, xs, i, j);
  }
}
