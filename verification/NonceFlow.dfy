/** A client's protected-resource requests against the verifier application: one challenge, one
    retry (crates/keylix-oauth/src/client.rs, lines 254 to 316;
    crates/keylix-verifier/src/lib.rs, lines 206 to 294). */
module NonceFlow {
  import opened Text
  import opened DpopProof
  import opened NonceStores
  import opened VerifierApp

  datatype ClientError = NonceContextMismatch | ProofKeyContinuityMismatch | BuildError(error: DpopError)

  datatype ClientProof = Built(proof: Proof) | Refused(error: ClientError)

  /** One protected-resource request of a client: `boundKey` is the key its token is bound to. */
  datatype Intent = Intent(
    context: NonceContext, verb: string, target: string, token: string, boundKey: string,
    clock: Option<I64>, jti: Option<string>)

  /** `protected_resource`: the proof is built with whatever nonce the store holds. */
  function ProtectedResource(ports: Ports, signer: Signer, nonces: Nonces, i: Intent): ClientProof {
    if i.context.namespace != ResourceServer then Refused(NonceContextMismatch)
    else if ports.thumbprint(signer.jwk) != i.boundKey then Refused(ProofKeyContinuityMismatch)
    else if !ValidMethod(i.verb) then Refused(BuildError(InvalidMethod))
    else
      match Build(ports, signer, Request(i.verb, i.target, Some(i.token), Lookup(nonces, i.context)), i.clock, i.jti)
      case Err(e) => Refused(BuildError(e))
      case Ok(proof) => Built(proof)
  }

  /** When a client sends a proof, and each reason why it does not: the context of another kind of server, another key
      than the token's, a method that is none, or the builder's own error. */
  lemma SendsExactly(ports: Ports, signer: Signer, nonces: Nonces, i: Intent)
    ensures var r := ProtectedResource(ports, signer, nonces, i);
            var request := Request(i.verb, i.target, Some(i.token), if i.context in nonces then Some(nonces[i.context])
                else None);
            var built := Build(ports, signer, request, i.clock, i.jti);
            var mine := i.context.namespace == ResourceServer && ports.thumbprint(signer.jwk) == i.boundKey;
            && (r == Refused(NonceContextMismatch) <==> i.context.namespace != ResourceServer)
            && (r == Refused(ProofKeyContinuityMismatch) <==>
                  i.context.namespace == ResourceServer && ports.thumbprint(signer.jwk) != i.boundKey)
            && (mine && !ValidMethod(i.verb) ==> r == Refused(BuildError(InvalidMethod)))
            && (mine && ValidMethod(i.verb) ==>
               r == if built.Ok? then Built(built.value) else Refused(BuildError(built.error)))
  {
  }

  /** After one recorded challenge of a run, every later proof of the client for that context carries
      the nonce in force and is not rejected for its nonce, and the client records no second
      challenge. */
  lemma OneRetrySettles(s: Service, st: State, calls: seq<Call>, i: nat, j: nat,
                        signer: Signer, client: ClientState, capacity: nat, intent: Intent, again: string)
    requires s.noncePolicy.Some? && i < j < |calls|
    requires ResultAt(s, st, calls, i).Rejected? && ResultAt(s, st, calls, i).nonce.Some?
    requires client.remaining == 1 && HasRoom(client.nonces, capacity, intent.context)
    requires var nonce := ResultAt(s, st, calls, i).nonce.value;
             var nonces := AfterChallenge(client, capacity, intent.context, nonce).1.nonces;
             var sent := ProtectedResource(s.ports, signer, nonces, intent);
             sent.Built? && ParseHeader(s, calls[j].request.dpopProof) == Ok(sent.proof)
    ensures ResultAt(s, st, calls, j).Rejected? ==> !NonceFailure(ResultAt(s, st, calls, j).failure)
    ensures var after := AfterChallenge(client, capacity, intent.context, ResultAt(s, st, calls, i).nonce.value);
            && after.0 == Recorded
            && AfterChallenge(after.1, capacity, intent.context, again) == (NonceRetryLimitExceeded, after.1)
  {
    hide Serve, ParseHeader, States;
    ChallengeSettles(s, st, calls, i, j);
  }
}
