/** The verifier application: request checks, nonce policy, proof verification and sender binding
    (crates/keylix-verifier/src/lib.rs, lines 34 to 334; crates/keylix-oauth/src/binding.rs,
    lines 56 to 256). */
module VerifierApp {
  import opened Text
  import opened ReplayLog
  import opened RequestTarget
  import opened DpopProof
  import opened NonceStores
  import Memory = MemoryReplay
  import PeerIpc

  datatype Failure =
    | UnsupportedVersion | MalformedRequest | InvalidProof | MethodMismatch | TargetMismatch | StaleProof | FutureProof
    | NonceRequired | NonceMismatch | NonceStateUnavailable | Replay | ReplayStoreUnavailable | TokenHashMismatch
    | TokenBindingMissing | TokenBindingMalformed | ConfirmationKeyMismatch | TokenIdentityMismatch
    | ClockUnavailable | InternalFailure

  datatype AppRequest = AppRequest(
    version: nat, verb: string, target: string, accessToken: string, dpopProof: string, confirmationJkt: Option<string>)

  datatype Binding = Binding(keyThumbprint: string, issuedAt: I64, nonceEnforced: bool, replayChecked: bool)

  datatype AppResult = Verified(binding: Binding) | Rejected(failure: Failure, nonce: Option<string>)

  /** What the parser of a compact proof can say. */
  datatype Parsed = Parsed(proof: Proof) | Malformed | TooLarge | KeyUnsupported

  /** A service: the libraries, the policies and the capacities. `parse` reads a compact proof,
      `fingerprint` hashes a token and `jkt` decodes a confirmation value. */
  datatype Service = Service(
    ports: Ports,
    policy: Policy,
    noncePolicy: Option<NonceContext>,
    replayCapacity: nat,
    nonceCapacity: nat,
    parse: string -> Parsed,
    fingerprint: string -> string,
    jkt: string -> Option<string>)

  datatype State = State(entries: Memory.Entries, nonces: Nonces)

  /** Whether the nonce store can be read, and what its generator would return. */
  datatype NonceIo = NonceIo(readable: bool, generated: Option<string>)

  /** One request with both clock readings. */
  datatype Call = Call(request: AppRequest, now: Option<I64>, storeNow: I64, io: NonceIo)

  /** `map_dpop_error`. */
  function FailureOf(e: DpopError): Failure {
    match e
    case AmbiguousProof | MalformedProof | ProofTooLarge | UnsupportedAlgorithm | UnsupportedKey | InvalidSignature =>
      InvalidProof
    case MethodMismatch => Failure.MethodMismatch
    case TargetMismatch | InvalidRequestTarget => Failure.TargetMismatch
    case ProofExpired => StaleProof
    case ProofFromFuture => FutureProof
    case AccessTokenHashMissing | AccessTokenHashMismatch => TokenHashMismatch
    case NonceRequired => Failure.NonceRequired
    case NonceMismatch => Failure.NonceMismatch
    case ReplayDetected => Failure.Replay
    case ReplayStoreUnavailable => Failure.ReplayStoreUnavailable
    case ClockUnavailable => Failure.ClockUnavailable
    case InvalidMethod | InvalidPolicy => MalformedRequest
    case SignerFailure | ProofIdUnavailable => InternalFailure
  }

  predicate NonceFailure(f: Failure) { f == Failure.NonceRequired || f == Failure.NonceMismatch }

  // ---- Sender binding ----

  /** A host-validated token: hash of its bytes and confirmed key. */
  datatype HostToken = HostToken(fingerprint: string, confirmation: Option<string>)

  /** `HostValidatedToken::new`: None when a confirmation value does not decode. */
  function Validated(s: Service, token: string, jkt: Option<string>): Option<HostToken> {
    if jkt.None? then Some(HostToken(s.fingerprint(token), None))
    else if s.jkt(jkt.value).None? then None
    else Some(HostToken(s.fingerprint(token), s.jkt(jkt.value)))
  }

  /** `compose_sender_binding`, with its errors as the application reports them. */
  function Compose(s: Service, proof: VerifiedProof, token: string, host: HostToken): AppResult {
    if !proof.tokenHashVerified then Rejected(TokenHashMismatch, None)
    else if s.fingerprint(token) != host.fingerprint then Rejected(TokenIdentityMismatch, None)
    else if host.confirmation.None? then Rejected(TokenBindingMissing, None)
    else if proof.thumbprint != host.confirmation.value then Rejected(ConfirmationKeyMismatch, None)
    else Verified(Binding(proof.thumbprint, proof.issuedAt, proof.nonceEnforced, proof.replayChecked))
  }

  /** The end of `verify`, after the proof was verified. */
  function Bind(s: Service, request: AppRequest, proof: VerifiedProof): AppResult {
    match Validated(s, request.accessToken, request.confirmationJkt)
    case None => Rejected(TokenBindingMalformed, None)
    case Some(host) => Compose(s, proof, request.accessToken, host)
  }

  // ---- Nonce policy ----

  /** A nonce is issued: the context has none yet, there is room and the generator works. */
  predicate Issues(s: Service, nonces: Nonces, io: NonceIo) {
    && s.noncePolicy.Some? && io.readable && s.noncePolicy.value !in nonces
    && HasRoom(nonces, s.nonceCapacity, s.noncePolicy.value) && io.generated.Some?
  }

  /** `required_nonce`: the nonce to demand, or None when nonce state is unavailable. */
  function RequiredNonce(s: Service, nonces: Nonces, io: NonceIo): Option<Option<string>> {
    if s.noncePolicy.None? then Some(None)
    else if io.readable && s.noncePolicy.value in nonces then Some(Some(nonces[s.noncePolicy.value]))
    else if Issues(s, nonces, io) then Some(io.generated)
    else None
  }

  function NoncesAfter(s: Service, nonces: Nonces, io: NonceIo): Nonces {
    if Issues(s, nonces, io) then nonces[s.noncePolicy.value := io.generated.value] else nonces
  }

  // ---- The whole request ----

  /** Checks that come before any state is touched. */
  function Precheck(s: Service, request: AppRequest): Option<Failure> {
    if request.version != PeerIpc.VERIFIER_PROTOCOL_VERSION then Some(UnsupportedVersion)
    else if request.accessToken == "" || request.dpopProof == "" then Some(MalformedRequest)
    else if NormalizeTarget(request.target, s.ports.v6).None? then Some(Failure.TargetMismatch)
    else None
  }

  /** `parse_dpop_header_values` on one value. */
  function ParseHeader(s: Service, value: string): Result<Proof> {
    if ',' in value then Err(AmbiguousProof)
    else
      match s.parse(value)
      case Parsed(proof) => Ok(proof)
      case Malformed => Err(MalformedProof)
      case TooLarge => Err(ProofTooLarge)
      case KeyUnsupported => Err(UnsupportedKey)
  }

  /** The proof and the request context that the verifier is called with. */
  function Prepared(s: Service, request: AppRequest, nonce: Option<string>): Result<(Proof, Request)>
    requires Precheck(s, request).None?
  {
    if !ValidMethod(request.verb) then Err(InvalidMethod)
    else
      match ParseHeader(s, request.dpopProof)
      case Err(e) => Err(e)
      case Ok(proof) =>
        var target := NormalizeTarget(request.target, s.ports.v6).value;
        Ok((proof, Request(request.verb, target, Some(request.accessToken), nonce)))
  }

  function Reject(e: DpopError, challenge: Option<string>): AppResult {
    Rejected(FailureOf(e), if NonceFailure(FailureOf(e)) then challenge else None)
  }

  /** `verify` from the proof on, against the entries of the replay store. */
  function Judge(s: Service, entries: Memory.Entries, call: Call, proof: Proof, request: Request)
      : (AppResult, Memory.Entries)
  {
    match Admit(s.ports, s.policy, proof, request, call.now)
    case Err(e) => (Reject(e, request.nonce), entries)
    case Ok((key, expiry)) =>
      var status := Memory.Answer(entries, s.replayCapacity, key, expiry, call.storeNow);
      var after := Memory.Next(entries, s.replayCapacity, key, expiry, call.storeNow);
      match Conclude(s.ports, proof, request, status)
      case Err(e) => (Reject(e, request.nonce), after)
      case Ok(verified) => (Bind(s, call.request, verified), after)
  }

  /** `VerifierApplication::verify`: the result and the new state. */
  function Serve(s: Service, st: State, call: Call): (AppResult, State) {
    match Precheck(s, call.request)
    case Some(failure) => (Rejected(failure, None), st)
    case None =>
      match RequiredNonce(s, st.nonces, call.io)
      case None => (Rejected(Failure.NonceStateUnavailable, None), st)
      case Some(nonce) =>
        var nonces := NoncesAfter(s, st.nonces, call.io);
        match Prepared(s, call.request, nonce)
        case Err(e) => (Rejected(FailureOf(e), None), st.(nonces := nonces))
        case Ok((proof, request)) =>
          var (result, entries) := Judge(s, st.entries, call, proof, request);
          (result, State(entries, nonces))
  }

  class VerifierApplication {
    const service: Service
    const replay: Memory.InMemoryReplayStore
    const nonces: InMemoryServerNonceStore

    constructor (service: Service, replay: Memory.InMemoryReplayStore, nonces: InMemoryServerNonceStore)
      ensures this.service == service && this.replay == replay && this.nonces == nonces
    {
      this.service, this.replay, this.nonces := service, replay, nonces;
    }

    ghost predicate Wired() {
      replay.capacity == service.replayCapacity && nonces.capacity == service.nonceCapacity
    }

    /** `required_nonce`. */
    method DemandNonce(io: NonceIo) returns (r: Option<Option<string>>)
      requires Wired()
      modifies nonces`entries
      ensures r == RequiredNonce(service, old(nonces.entries), io)
      ensures nonces.entries == NoncesAfter(service, old(nonces.entries), io)
    {
      if service.noncePolicy.None? {
        return Some(None);
      }
      var context := service.noncePolicy.value;
      var expected := nonces.ExpectedNonce(context, io.readable);
      if expected.None? {
        return None;
      }
      if expected.value.Some? {
        return expected;
      }
      var issued := nonces.IssueNonce(context, io.generated);
      return if issued.Some? then Some(issued) else None;
    }

    method Verify(call: Call) returns (r: AppResult)
      requires Wired()
      modifies replay`entries, nonces`entries
      ensures (r, State(replay.entries, nonces.entries)) ==
              Serve(service, State(old(replay.entries), old(nonces.entries)), call)
    {
      hide Admit, Conclude, NormalizeTarget, Bind, FailureOf, Memory.Answer, Memory.Next, RequiredNonce, NoncesAfter;
      var failed := Precheck(service, call.request);
      if failed.Some? {
        return Rejected(failed.value, None);
      }
      ghost var before := nonces.entries;
      var nonce := DemandNonce(call.io);
      UnavailableKeeps(service, before, call.io);
      if nonce.None? {
        return Rejected(Failure.NonceStateUnavailable, None);
      }
      var prepared := Prepared(service, call.request, nonce.value);
      if prepared.Err? {
        return Rejected(FailureOf(prepared.error), None);
      }
      var (proof, request) := prepared.value;
      var verified := DpopProof.Verify(service.ports, service.policy, proof, request, call.now, replay, call.storeNow);
      if verified.Err? {
        return Reject(verified.error, request.nonce);
      }
      return Bind(service, call.request, verified.value);
    }
  }

  lemma UnavailableKeeps(s: Service, nonces: Nonces, io: NonceIo)
    ensures RequiredNonce(s, nonces, io).None? ==> NoncesAfter(s, nonces, io) == nonces
  {
  }

  /** What a verified sender binding means, in both directions: an intact request whose proof passes every
      check for this method, target, token and nonce, is not a replay, and is signed by the key that the token
      confirms. */
  lemma VerifiedExactly(s: Service, st: State, call: Call)
    ensures var q := call.request;
            var nonce := RequiredNonce(s, st.nonces, call.io);
            var target := NormalizeTarget(q.target, s.ports.v6);
            Serve(s, st, call).0.Verified? <==>
              && q.version == 1 && q.accessToken != "" && q.dpopProof != ""
              && target.Some?
              && nonce.Some? && ValidMethod(q.verb) && ',' !in q.dpopProof && s.parse(q.dpopProof).Parsed?
              && var proof := s.parse(q.dpopProof).proof;
                 var admitted := Admit(s.ports, s.policy, proof,
                     Request(q.verb, target.value, Some(q.accessToken), nonce.value), call.now);
                 && admitted.Ok?
                 && Memory.Answer(st.entries, s.replayCapacity, admitted.value.0, admitted.value.1, call.storeNow)
                    == Fresh
                 && q.confirmationJkt.Some? && s.jkt(q.confirmationJkt.value) == Some(s.ports.thumbprint(proof.jwk))
    ensures Serve(s, st, call).0.Verified? ==>
              var proof := s.parse(call.request.dpopProof).proof;
              Serve(s, st, call).0.binding ==
              Binding(s.ports.thumbprint(proof.jwk), proof.claims.iat, s.noncePolicy.Some?, true)
  {
    hide Admit, Memory.Answer, Memory.Next, NormalizeTarget, NoncesAfter, FailureOf, ValidMethod;
  }

  // ---- Each rejection ----

  /** The nonce that is demanded, from the state of the store: none without a policy, the one in force, or a new one if
      there is room and the generator works. */
  lemma NonceDemanded(s: Service, nonces: Nonces, io: NonceIo, n: string)
    ensures RequiredNonce(s, nonces, io) == Some(None) <==> s.noncePolicy.None?
    ensures RequiredNonce(s, nonces, io) == Some(Some(n)) <==>
              && s.noncePolicy.Some? && io.readable
              && if s.noncePolicy.value in nonces then nonces[s.noncePolicy.value] == n
                 else |nonces| < s.nonceCapacity && io.generated == Some(n)
  {
  }

  predicate Intact(s: Service, q: AppRequest) {
    q.version == 1 && q.accessToken != "" && q.dpopProof != "" && NormalizeTarget(q.target, s.ports.v6).Some?
  }

  /** The request gets as far as verifying its proof. */
  predicate Verifiable(s: Service, st: State, call: Call) {
    && Intact(s, call.request) && RequiredNonce(s, st.nonces, call.io).Some? && ValidMethod(call.request.verb)
    && ',' !in call.request.dpopProof && s.parse(call.request.dpopProof).Parsed?
  }

  /** What the verifier makes of the proof before it asks the store. */
  function Admission(s: Service, st: State, call: Call): Result<(ReplayKey, I64)>
    requires Verifiable(s, st, call)
  {
    var q := call.request;
    var request := Request(q.verb, NormalizeTarget(q.target, s.ports.v6).value, Some(q.accessToken),
                           RequiredNonce(s, st.nonces, call.io).value);
    Admit(s.ports, s.policy, s.parse(q.dpopProof).proof, request, call.now)
  }

  predicate AdmissionFails(s: Service, st: State, call: Call, e: DpopError) {
    Verifiable(s, st, call) && Admission(s, st, call) == Err(e)
  }

  predicate StoreSays(s: Service, st: State, call: Call, status: Status) {
    && Verifiable(s, st, call) && Admission(s, st, call).Ok?
    && var (key, expiry) := Admission(s, st, call).value;
       Memory.Answer(st.entries, s.replayCapacity, key, expiry, call.storeNow) == status
  }

  predicate RejectedFor(s: Service, st: State, call: Call, f: Failure) {
    Serve(s, st, call).0.Rejected? && Serve(s, st, call).0.failure == f
  }

  /** The stages of a request before its proof is verified. */
  lemma EarlyStages(s: Service, st: State, call: Call)
    ensures var q, r := call.request, Serve(s, st, call).0;
            if q.version != 1 then r == Rejected(UnsupportedVersion, None)
            else if q.accessToken == "" || q.dpopProof == "" then r == Rejected(MalformedRequest, None)
            else if !Intact(s, q) then r == Rejected(Failure.TargetMismatch, None)
            else if RequiredNonce(s, st.nonces, call.io).None? then r == Rejected(Failure.NonceStateUnavailable, None)
            else if !ValidMethod(q.verb) then r == Rejected(MalformedRequest, None)
            else !Verifiable(s, st, call) ==> r == Rejected(InvalidProof, None)
  {
    hide Judge, NormalizeTarget, NoncesAfter, RequiredNonce, ValidMethod;
  }

  /** The stages of a request whose proof is verified. */
  lemma LateStages(s: Service, st: State, call: Call)
    requires Verifiable(s, st, call)
    ensures var r := Serve(s, st, call).0;
            match Admission(s, st, call)
            case Err(e) => r.Rejected? && r.failure == FailureOf(e)
            case Ok((key, expiry)) =>
              match Memory.Answer(st.entries, s.replayCapacity, key, expiry, call.storeNow)
              case Failed => r == Rejected(Failure.ReplayStoreUnavailable, None)
              case Replay => r == Rejected(Failure.Replay, None)
              case Fresh =>
                var thumbprint := s.ports.thumbprint(s.parse(call.request.dpopProof).proof.jwk);
                Binds(s, call.request.confirmationJkt, thumbprint, r)
  {
    hide Admit, Memory.Answer, Memory.Next, NormalizeTarget, NoncesAfter, RequiredNonce, ValidMethod;
  }

  /** What becomes of a verified proof: the token must confirm its key. */
  predicate Binds(s: Service, jkt: Option<string>, thumbprint: string, r: AppResult) {
    if jkt.None? then r == Rejected(TokenBindingMissing, None)
    else if s.jkt(jkt.value).None? then r == Rejected(TokenBindingMalformed, None)
    else if s.jkt(jkt.value).value != thumbprint then r == Rejected(ConfirmationKeyMismatch, None)
    else r.Verified?
  }

  /** Why requests are rejected before their proof is looked at, or for the proof itself. */
  lemma RequestRejections(s: Service, st: State, call: Call)
    ensures var q := call.request;
            && (RejectedFor(s, st, call, UnsupportedVersion) <==> q.version != 1)
            && (RejectedFor(s, st, call, Failure.NonceStateUnavailable) <==>
                  Intact(s, q) && RequiredNonce(s, st.nonces, call.io).None?)
            && (RejectedFor(s, st, call, MalformedRequest) <==>
                  || (q.version == 1 && (q.accessToken == "" || q.dpopProof == ""))
                  || (Intact(s, q) && RequiredNonce(s, st.nonces, call.io).Some? && !ValidMethod(q.verb))
                  || AdmissionFails(s, st, call, InvalidPolicy))
            && (RejectedFor(s, st, call, InvalidProof) <==>
                  || (&& Intact(s, q) && RequiredNonce(s, st.nonces, call.io).Some? && ValidMethod(q.verb)
                      && !Verifiable(s, st, call))
                  || AdmissionFails(s, st, call, MalformedProof) || AdmissionFails(s, st, call, UnsupportedAlgorithm)
                  || AdmissionFails(s, st, call, UnsupportedKey) || AdmissionFails(s, st, call, InvalidSignature))
  {
    hide Serve, Admission, Memory.Answer, RequiredNonce, ValidMethod, NormalizeTarget;
    EarlyStages(s, st, call);
    if Verifiable(s, st, call) {
      LateStages(s, st, call);
      AdmissionErrors(s, st, call);
    }
  }

  /** Why a proof is rejected before the store is asked. */
  lemma ProofRejections(s: Service, st: State, call: Call)
    ensures var q := call.request;
            && (RejectedFor(s, st, call, Failure.TargetMismatch) <==>
                  || (q.version == 1 && q.accessToken != "" && q.dpopProof != "" && !Intact(s, q))
                  || AdmissionFails(s, st, call, DpopError.TargetMismatch))
            && (RejectedFor(s, st, call, Failure.MethodMismatch) <==>
               AdmissionFails(s, st, call, DpopError.MethodMismatch))
            && (RejectedFor(s, st, call, StaleProof) <==> AdmissionFails(s, st, call, ProofExpired))
            && (RejectedFor(s, st, call, FutureProof) <==> AdmissionFails(s, st, call, ProofFromFuture))
            && (RejectedFor(s, st, call, Failure.ClockUnavailable) <==>
                  AdmissionFails(s, st, call, DpopError.ClockUnavailable))
            && (RejectedFor(s, st, call, TokenHashMismatch) <==>
                  AdmissionFails(s, st, call, AccessTokenHashMissing)
                      || AdmissionFails(s, st, call, AccessTokenHashMismatch))
            && (RejectedFor(s, st, call, Failure.NonceRequired) <==>
               AdmissionFails(s, st, call, DpopError.NonceRequired))
            && (RejectedFor(s, st, call, Failure.NonceMismatch) <==>
               AdmissionFails(s, st, call, DpopError.NonceMismatch))
  {
    hide Serve, Admission, Memory.Answer, RequiredNonce, ValidMethod, NormalizeTarget;
    EarlyStages(s, st, call);
    if Verifiable(s, st, call) {
      LateStages(s, st, call);
      AdmissionErrors(s, st, call);
    }
  }

  /** Why a proof that passed every check before the store is rejected. */
  lemma BindingRejections(s: Service, st: State, call: Call)
    ensures var jkt := call.request.confirmationJkt;
            && (RejectedFor(s, st, call, Failure.Replay) <==> StoreSays(s, st, call, Status.Replay))
            && (RejectedFor(s, st, call, Failure.ReplayStoreUnavailable) <==> StoreSays(s, st, call, Failed))
            && (RejectedFor(s, st, call, TokenBindingMissing) <==> StoreSays(s, st, call, Fresh) && jkt.None?)
            && (RejectedFor(s, st, call, TokenBindingMalformed) <==>
                  StoreSays(s, st, call, Fresh) && jkt.Some? && s.jkt(jkt.value).None?)
            && (RejectedFor(s, st, call, ConfirmationKeyMismatch) <==>
                  && StoreSays(s, st, call, Fresh) && jkt.Some? && s.jkt(jkt.value).Some?
                  && s.jkt(jkt.value).value != s.ports.thumbprint(s.parse(call.request.dpopProof).proof.jwk))
            && !RejectedFor(s, st, call, InternalFailure)
  {
    hide Serve, Admission, Memory.Answer, RequiredNonce, ValidMethod, NormalizeTarget;
    EarlyStages(s, st, call);
    if Verifiable(s, st, call) {
      LateStages(s, st, call);
      AdmissionErrors(s, st, call);
    }
  }

  /** The errors that come before the store is asked. */
  lemma AdmissionErrors(s: Service, st: State, call: Call)
    requires Verifiable(s, st, call)
    ensures Admission(s, st, call).Err? ==>
              Admission(s, st, call).error in {
                MalformedProof, UnsupportedAlgorithm, UnsupportedKey, InvalidSignature, DpopError.MethodMismatch,
                DpopError.TargetMismatch, ProofExpired, ProofFromFuture, AccessTokenHashMissing,
                    AccessTokenHashMismatch,
                DpopError.NonceRequired, DpopError.NonceMismatch, DpopError.ClockUnavailable, InvalidPolicy}
  {
    hide NormalizeTarget, RequiredNonce, ValidMethod, Material;
  }

  /** Exactly the two nonce failures carry a challenge, which is the nonce demanded. */
  lemma ChallengeCarried(s: Service, st: State, call: Call)
    ensures var (r, _) := Serve(s, st, call);
            r.Rejected? ==>
              r.nonce == if NonceFailure(r.failure) then RequiredNonce(s, st.nonces, call.io).value else None
  {
    hide Admit, Memory.Answer, Memory.Next, NormalizeTarget, NoncesAfter, RequiredNonce, ValidMethod, Conclude;
  }

  // ---- Runs ----

  /** The states of a run, one more than its calls, and its results. */
  function States(s: Service, st: State, calls: seq<Call>): (r: seq<State>)
    ensures |r| == |calls| + 1
  {
    if calls == [] then [st]
    else
      var before := States(s, st, calls[..|calls| - 1]);
      before + [Serve(s, before[|calls| - 1], calls[|calls| - 1]).1]
  }

  function ResultAt(s: Service, st: State, calls: seq<Call>, i: nat): AppResult
    requires i < |calls|
  {
    Serve(s, States(s, st, calls)[i], calls[i]).0
  }

  lemma {:induction false} StatesStep(s: Service, st: State, calls: seq<Call>, i: nat)
    requires i < |calls|
    ensures States(s, st, calls)[i + 1] == Serve(s, States(s, st, calls)[i], calls[i]).1
    ensures States(s, st, calls[..i + 1])[i] == States(s, st, calls)[i]
  {
    hide Serve;
    var n := |calls| - 1;
    if i < n {
      StatesStep(s, st, calls[..n], i);
      assert calls[..n][..i + 1] == calls[..i + 1];
    } else {
      assert calls[..n + 1] == calls;
    }
  }

  // ---- Marker conservation ----

  /** Entries that appeared or were recorded anew. */
  function Inserted(before: Memory.Entries, after: Memory.Entries): set<ReplayKey> {
    set k | k in after && (k !in before || after[k] != before[k])
  }

  /** Results that leave a marker: success, and the failures found after the proof was accepted. */
  predicate Marks(r: AppResult) {
    || r.Verified?
    || r.failure == TokenBindingMissing || r.failure == TokenBindingMalformed || r.failure == ConfirmationKeyMismatch
  }

  lemma InsertedByStore(entries: Memory.Entries, capacity: nat, key: ReplayKey, expiry: I64, now: I64)
    ensures Inserted(entries, Memory.Next(entries, capacity, key, expiry, now)) ==
            if Memory.Answer(entries, capacity, key, expiry, now).Fresh? then {key} else {}
  {
  }

  lemma BindMarks(s: Service, request: AppRequest, proof: VerifiedProof)
    requires proof.tokenHashVerified
    ensures Marks(Bind(s, request, proof))
  {
  }

  lemma RejectDoesNotMark(e: DpopError, challenge: Option<string>)
    ensures !Marks(Reject(e, challenge)) && Reject(e, challenge).failure != TokenIdentityMismatch
  {
  }

  lemma JudgeInserts(s: Service, entries: Memory.Entries, call: Call, proof: Proof, request: Request)
    requires request.accessToken.Some?
    ensures var (result, after) := Judge(s, entries, call, proof, request);
            |Inserted(entries, after)| == if Marks(result) then 1 else 0
  {
    hide Admit, Memory.Answer, Memory.Next, FailureOf, Inserted, Bind, Reject, Marks;
    var admitted := Admit(s.ports, s.policy, proof, request, call.now);
    match admitted
    case Err(e) =>
      RejectDoesNotMark(e, request.nonce);
      NothingInserted(entries);
    case Ok((key, expiry)) =>
      InsertedByStore(entries, s.replayCapacity, key, expiry, call.storeNow);
      var concluded := Conclude(s.ports, proof, request,
          Memory.Answer(entries, s.replayCapacity, key, expiry, call.storeNow));
      match concluded
      case Err(e) => RejectDoesNotMark(e, request.nonce);
      case Ok(verified) => BindMarks(s, call.request, verified);
  }

  lemma NothingInserted(entries: Memory.Entries)
    ensures Inserted(entries, entries) == {}
  {
  }

  /** One request inserts one marker if its result says so and none otherwise. */
  lemma ServeInserts(s: Service, st: State, call: Call)
    ensures var (result, after) := Serve(s, st, call);
            |Inserted(st.entries, after.entries)| == if Marks(result) then 1 else 0
  {
    hide Judge, FailureOf, Inserted, RequiredNonce, NoncesAfter, NormalizeTarget, ParseHeader;
    NothingInserted(st.entries);
    if Precheck(s, call.request).None? && RequiredNonce(s, st.nonces, call.io).Some? {
      var prepared := Prepared(s, call.request, RequiredNonce(s, st.nonces, call.io).value);
      match prepared
      case Ok((proof, request)) => JudgeInserts(s, st.entries, call, proof, request);
      case Err(e) => RejectDoesNotMark(e, None);
    }
  }

  function TotalInserted(s: Service, st: State, calls: seq<Call>): nat {
    if calls == [] then 0
    else
      var n := |calls| - 1;
      TotalInserted(s, st, calls[..n]) +
      |Inserted(States(s, st, calls)[n].entries, States(s, st, calls)[n + 1].entries)|
  }

  function TotalMarking(s: Service, st: State, calls: seq<Call>): nat {
    if calls == [] then 0
    else
      var n := |calls| - 1;
      TotalMarking(s, st, calls[..n]) + if Marks(ResultAt(s, st, calls, n)) then 1 else 0
  }

  /** Conservation over every run: markers inserted equal the results that leave a marker. */
  lemma {:induction false} MarkersConserved(s: Service, st: State, calls: seq<Call>)
    ensures TotalInserted(s, st, calls) == TotalMarking(s, st, calls)
  {
    hide Serve, Inserted, Marks;
    if calls != [] {
      var n := |calls| - 1;
      MarkersConserved(s, st, calls[..n]);
      StatesStep(s, st, calls, n);
      ServeInserts(s, States(s, st, calls)[n], calls[n]);
    }
  }

  /** The application never reports a token identity mismatch: both hashes are of the same bytes. */
  lemma NoIdentityMismatch(s: Service, st: State, call: Call)
    ensures var result := Serve(s, st, call).0; result.Rejected? ==> result.failure != TokenIdentityMismatch
  {
    hide Admit, Memory.Answer, Memory.Next, NormalizeTarget, NoncesAfter;
  }

  // ---- Nonce convergence ----

  /** The nonce in force never changes once there is one, and a challenge carries it. */
  lemma ServeNonce(s: Service, st: State, call: Call)
    requires s.noncePolicy.Some?
    ensures var context := s.noncePolicy.value;
            var (result, after) := Serve(s, st, call);
            && (context in st.nonces ==> context in after.nonces && after.nonces[context] == st.nonces[context])
            && (result.Rejected? && result.nonce.Some? ==>
                  context in after.nonces && after.nonces[context] == result.nonce.value)
            && (result.Rejected? && NonceFailure(result.failure) ==> result.nonce.Some?)
  {
    hide Memory.Answer, Memory.Next, NormalizeTarget, FreshnessError, SignatureError, BindingError, TokenHashError,
         ReplayKeyOf;
  }

  /** A proof that carries the nonce in force is not rejected for its nonce. */
  lemma CarriedNoncePasses(s: Service, st: State, call: Call)
    requires s.noncePolicy.Some? && s.noncePolicy.value in st.nonces
    requires ParseHeader(s, call.request.dpopProof).Ok?
    requires ParseHeader(s, call.request.dpopProof).value.claims.nonce == Some(st.nonces[s.noncePolicy.value])
    ensures var result := Serve(s, st, call).0; result.Rejected? ==> !NonceFailure(result.failure)
  {
    hide Memory.Answer, Memory.Next, NormalizeTarget, ReplayKeyOf;
  }

  /** Over a run the nonce of the context is set at most once. */
  lemma {:induction false} NonceKept(s: Service, st: State, calls: seq<Call>, i: nat, j: nat)
    requires s.noncePolicy.Some? && i <= j <= |calls| && s.noncePolicy.value in States(s, st, calls)[i].nonces
    ensures var context, states := s.noncePolicy.value, States(s, st, calls);
            context in states[j].nonces && states[j].nonces[context] == states[i].nonces[context]
  {
    hide Serve;
    if i < j {
      NonceKept(s, st, calls, i, j - 1);
      StatesStep(s, st, calls, j - 1);
      ServeNonce(s, States(s, st, calls)[j - 1], calls[j - 1]);
    }
  }

  /** The step that issues the nonce of the context. */
  predicate IssuesAt(s: Service, st: State, calls: seq<Call>, i: nat)
    requires s.noncePolicy.Some? && i < |calls|
  {
    s.noncePolicy.value !in States(s, st, calls)[i].nonces && s.noncePolicy.value in States(s, st, calls)[i + 1].nonces
  }

  /** At most one nonce is issued in a run. */
  lemma NonceIssuedOnce(s: Service, st: State, calls: seq<Call>, i: nat, j: nat)
    requires s.noncePolicy.Some? && i < |calls| && j < |calls| && IssuesAt(s, st, calls, i) && IssuesAt(s, st, calls, j)
    ensures i == j
  {
    if i < j {
      NonceKept(s, st, calls, i + 1, j);
    } else if j < i {
      NonceKept(s, st, calls, j + 1, i);
    }
  }

  /** Every two challenges of a run carry the same nonce. */
  lemma ChallengesAgree(s: Service, st: State, calls: seq<Call>, i: nat, j: nat)
    requires s.noncePolicy.Some? && i <= j < |calls|
    requires ResultAt(s, st, calls, i).Rejected? && ResultAt(s, st, calls, i).nonce.Some?
    requires ResultAt(s, st, calls, j).Rejected? && ResultAt(s, st, calls, j).nonce.Some?
    ensures ResultAt(s, st, calls, i).nonce == ResultAt(s, st, calls, j).nonce
  {
    hide Serve;
    StatesStep(s, st, calls, i);
    StatesStep(s, st, calls, j);
    ServeNonce(s, States(s, st, calls)[i], calls[i]);
    ServeNonce(s, States(s, st, calls)[j], calls[j]);
    NonceKept(s, st, calls, i + 1, j + 1);
  }

  /** After a challenge, a proof that carries its nonce is never rejected for its nonce again. */
  lemma ChallengeSettles(s: Service, st: State, calls: seq<Call>, i: nat, j: nat)
    requires s.noncePolicy.Some? && i < j < |calls|
    requires ResultAt(s, st, calls, i).Rejected? && ResultAt(s, st, calls, i).nonce.Some?
    requires ParseHeader(s, calls[j].request.dpopProof).Ok?
    requires ParseHeader(s, calls[j].request.dpopProof).value.claims.nonce == ResultAt(s, st, calls, i).nonce
    ensures ResultAt(s, st, calls, j).Rejected? ==> !NonceFailure(ResultAt(s, st, calls, j).failure)
  {
    hide Serve, ParseHeader;
    StatesStep(s, st, calls, i);
    ServeNonce(s, States(s, st, calls)[i], calls[i]);
    NonceKept(s, st, calls, i + 1, j);
    CarriedNoncePasses(s, States(s, st, calls)[j], calls[j]);
  }
}
