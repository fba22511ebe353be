/** Building and strictly verifying DPoP proofs, sections 4.2 and 4.3 of RFC 9449
    (crates/keylix-dpop/src/proof.rs, lines 183 to 588). */
module DpopProof {
  import opened Text
  import opened ReplayLog
  import opened RequestTarget
  import Memory = MemoryReplay

  datatype DpopError =
    | AmbiguousProof | MalformedProof | ProofTooLarge | UnsupportedAlgorithm | UnsupportedKey | InvalidSignature
    | MethodMismatch | TargetMismatch | ProofExpired | ProofFromFuture
    | AccessTokenHashMissing | AccessTokenHashMismatch | NonceRequired | NonceMismatch
    | ReplayDetected | ReplayStoreUnavailable | SignerFailure | ClockUnavailable | ProofIdUnavailable
    | InvalidRequestTarget | InvalidMethod | InvalidPolicy

  datatype Result<+T> = Ok(value: T) | Err(error: DpopError)

  datatype Claims = Claims(
    jti: string, htm: string, htu: string, iat: I64, ath: Option<string>, nonce: Option<string>)

  /** A parsed proof: decoded parts, and the encoded ones that were signed. `jwk` stands for an
      accepted public key. */
  datatype Proof = Proof(
    typ: string, alg: string, jwk: string, claims: Claims,
    encodedHeader: string, encodedPayload: string, signature: string)

  /** What the check of a signature by a key can say. */
  datatype SignatureCheck = Valid | BadKey | BadSignature

  /** The libraries behind the protocol code. */
  datatype Ports = Ports(
    thumbprint: string -> string,
    signature: (string, string, string) -> SignatureCheck,
    digest: string -> ReplayKey,
    tokenHash: string -> string,
    v6: V6)

  datatype Policy = Policy(maxAge: I64, skew: I64)

  /** What `VerificationPolicy::new` guarantees. */
  predicate ValidPolicy(p: Policy) { 0 <= p.maxAge && 0 <= p.skew }

  /** `VerificationPolicy::new`: seconds that fit a signed 64-bit time. */
  function NewPolicy(maxAge: nat, skew: nat): Result<Policy> {
    if maxAge > I64_MAX || skew > I64_MAX then Err(InvalidPolicy) else Ok(Policy(maxAge, skew))
  }

  /** Exactly the valid policies can be made, each from its own seconds. */
  lemma PoliciesMade(p: Policy)
    ensures ValidPolicy(p) <==> exists maxAge: nat, skew: nat :: NewPolicy(maxAge, skew) == Ok(p)
    ensures forall maxAge: nat, skew: nat ::
              NewPolicy(maxAge, skew) == Ok(p) ==> p.maxAge as int == maxAge && p.skew as int == skew
  {
    if ValidPolicy(p) {
      assert NewPolicy(p.maxAge, p.skew) == Ok(p);
    }
  }

  datatype Request = Request(verb: string, target: string, accessToken: Option<string>, nonce: Option<string>)

  datatype VerifiedProof = VerifiedProof(
    thumbprint: string, issuedAt: I64, nonceEnforced: bool, replayChecked: bool, tokenHashVerified: bool)

  const ES256_SIGNATURE_BYTES := 64
  const MAX_JTI_BYTES := 256
  const MAX_HTM_BYTES := 64
  const MAX_HTU_BYTES := 2048
  const MAX_NONCE_BYTES := 1024
  const SHA256_BASE64URL_BYTES := 43

  // ---- Replay keys ----

  function Pow256(k: nat): nat {
    if k == 0 then 1 else 256 * Pow256(k - 1)
  }

  /** `k` bytes of a number, most significant first. */
  function BigEndian(n: nat, k: nat): (s: string)
    ensures |s| == k
  {
    if k == 0 then "" else BigEndian(n / 256, k - 1) + [(n % 256) as char]
  }

  lemma {:induction false} BigEndianInjective(m: nat, n: nat, k: nat)
    requires m < Pow256(k) && n < Pow256(k) && BigEndian(m, k) == BigEndian(n, k)
    ensures m == n
  {
    if k > 0 {
      var s, t := BigEndian(m, k), BigEndian(n, k);
      assert s[..k - 1] == BigEndian(m / 256, k - 1) && t[..k - 1] == BigEndian(n / 256, k - 1);
      assert s[k - 1] == (m % 256) as char && t[k - 1] == (n % 256) as char;
      BigEndianInjective(m / 256, n / 256, k - 1);
    }
  }

  /** The parts of a replay identity, each behind its eight-byte length. */
  function Material(parts: seq<string>): string {
    if parts == [] then ""
    else
      var last := parts[|parts| - 1];
      Material(parts[..|parts| - 1]) + BigEndian(|last|, 8) + last
  }

  lemma MaterialSnoc(parts: seq<string>, part: string)
    ensures Material(parts + [part]) == Material(parts) + BigEndian(|part|, 8) + part && Material([]) == ""
  {
    hide BigEndian;
    assert (parts + [part])[..|parts|] == parts;
  }

  /** The same, from the front. */
  lemma {:induction false} MaterialCons(part: string, rest: seq<string>)
    ensures Material([part] + rest) == BigEndian(|part|, 8) + part + Material(rest)
  {
    hide BigEndian, Material;
    var front := BigEndian(|part|, 8) + part;
    if rest == [] {
      MaterialSnoc([], part);
      assert [part] + rest == [] + [part];
      assert "" + BigEndian(|part|, 8) == BigEndian(|part|, 8) && front + "" == front;
    } else {
      var init, last := rest[..|rest| - 1], rest[|rest| - 1];
      MaterialCons(part, init);
      assert rest == init + [last] && [part] + rest == ([part] + init) + [last];
      MaterialSnoc(init, last);
      MaterialSnoc([part] + init, last);
      ConcatAssociative(front, Material(init), BigEndian(|last|, 8));
      ConcatAssociative(front, Material(init) + BigEndian(|last|, 8), last);
    }
  }

  lemma MaterialEmpty(parts: seq<string>)
    ensures Material(parts) == "" <==> parts == []
  {
  }

  predicate Sized(parts: seq<string>) {
    forall i :: 0 <= i < |parts| ==> |parts[i]| < Pow256(8)
  }

  /** The length prefixes make the material readable in one way only. */
  lemma {:induction false} MaterialInjective(a: seq<string>, b: seq<string>)
    requires Sized(a) && Sized(b) && Material(a) == Material(b)
    ensures a == b
  {
    hide BigEndian, Material, Pow256;
    MaterialEmpty(a);
    MaterialEmpty(b);
    if a != [] {
      var x, y := a[0], b[0];
      assert a == [x] + a[1..] && b == [y] + b[1..];
      MaterialCons(x, a[1..]);
      MaterialCons(y, b[1..]);
      var m := Material(a);
      assert m[..8] == BigEndian(|x|, 8) && m[..8] == BigEndian(|y|, 8);
      BigEndianInjective(|x|, |y|, 8);
      assert m[8..8 + |x|] == x && m[8..8 + |x|] == y;
      assert m[8 + |x|..] == Material(a[1..]) && m[8 + |x|..] == Material(b[1..]);
      MaterialInjective(a[1..], b[1..]);
    }
  }

  /** Who used which identifier where: what must not be accepted twice. */
  datatype Identity = Identity(thumbprint: string, verb: string, target: string, jti: string)

  function IdentityParts(id: Identity): seq<string> {
    [id.thumbprint, id.verb, id.target, id.jti]
  }

  /** `derive_replay_key`. */
  function ReplayKeyOf(ports: Ports, id: Identity): (r: Result<ReplayKey>)
    ensures r.Err? ==> r.error == MalformedProof
  {
    if Sized(IdentityParts(id)) then Ok(ports.digest(Material(IdentityParts(id)))) else Err(MalformedProof)
  }

  /** The buffer of `derive_replay_key`, extended part by part. */
  method DeriveReplayKey(ports: Ports, id: Identity) returns (r: Result<ReplayKey>)
    ensures r == ReplayKeyOf(ports, id)
  {
    var parts := IdentityParts(id);
    var material := "";
    for i := 0 to |parts|
      invariant material == Material(parts[..i]) && Sized(parts[..i])
    {
      if |parts[i]| >= Pow256(8) {
        return Err(MalformedProof);
      }
      assert parts[..i + 1][..i] == parts[..i];
      material := material + BigEndian(|parts[i]|, 8);
      material := material + parts[i];
    }
    assert parts[..|parts|] == parts;
    return Ok(ports.digest(material));
  }

  /** The value of bytes, most significant first. */
  function BytesValue(s: string): nat {
    if s == "" then 0 else s[0] as nat * Pow256(|s| - 1) + BytesValue(s[1..])
  }

  lemma {:induction false} BytesValueSnoc(s: string, c: char)
    ensures BytesValue(s + [c]) == 256 * BytesValue(s) + c as nat
  {
    if s == "" {
      assert [c][1..] == "";
      assert s + [c] == [c];
    } else {
      BytesValueSnoc(s[1..], c);
      assert (s + [c])[1..] == s[1..] + [c];
      assert Pow256(|s|) == 256 * Pow256(|s| - 1);
    }
  }

  /** The eight bytes of a length are its value, most significant first. */
  lemma {:induction false} BigEndianReads(n: nat, k: nat)
    requires n < Pow256(k)
    ensures BytesValue(BigEndian(n, k)) == n
  {
    if k > 0 {
      BigEndianReads(n / 256, k - 1);
      BytesValueSnoc(BigEndian(n / 256, k - 1), (n % 256) as char);
    }
  }

  /** The material of an identity, written out. */
  lemma IdentityMaterial(id: Identity)
    ensures Material(IdentityParts(id)) ==
            BigEndian(|id.thumbprint|, 8) + id.thumbprint + BigEndian(|id.verb|, 8) + id.verb
            + BigEndian(|id.target|, 8) + id.target + BigEndian(|id.jti|, 8) + id.jti
  {
    hide BigEndian, Material;
    var a, b, c := [id.thumbprint], [id.thumbprint, id.verb], [id.thumbprint, id.verb, id.target];
    MaterialSnoc([], id.thumbprint);
    MaterialSnoc(a, id.verb);
    MaterialSnoc(b, id.target);
    MaterialSnoc(c, id.jti);
    assert [] + [id.thumbprint] == a && a + [id.verb] == b && b + [id.target] == c && c + [id.jti] == IdentityParts(id);
    assert "" + BigEndian(|id.thumbprint|, 8) == BigEndian(|id.thumbprint|, 8);
  }

  /** An identity has a key exactly when each part is shorter than two to the sixty-fourth. */
  lemma KeyedWhen(ports: Ports, id: Identity)
    ensures ReplayKeyOf(ports, id).Ok? <==>
              && |id.thumbprint| < 0x1_0000_0000_0000_0000 && |id.verb| < 0x1_0000_0000_0000_0000
              && |id.target| < 0x1_0000_0000_0000_0000 && |id.jti| < 0x1_0000_0000_0000_0000
    ensures ReplayKeyOf(ports, id).Ok? ==> ReplayKeyOf(ports, id).value == ports.digest(Material(IdentityParts(id)))
  {
    hide Material;
    assert Pow256(4) == 0x1_0000_0000;
    assert Pow256(8) == 256 * 256 * 256 * 256 * Pow256(4);
    var parts := IdentityParts(id);
    assert parts[0] == id.thumbprint && parts[1] == id.verb && parts[2] == id.target && parts[3] == id.jti;
  }

  /** Different identities have different material. */
  lemma IdentityMaterialInjective(a: Identity, b: Identity)
    requires Sized(IdentityParts(a)) && Sized(IdentityParts(b))
    requires Material(IdentityParts(a)) == Material(IdentityParts(b))
    ensures a == b
  {
    MaterialInjective(IdentityParts(a), IdentityParts(b));
    assert forall i :: 0 <= i < 4 ==> IdentityParts(a)[i] == IdentityParts(b)[i];
  }

  // ---- Verification ----

  /** `validate_claim_shape`. */
  predicate WellShaped(c: Claims) {
    && 1 <= |c.jti| <= MAX_JTI_BYTES
    && 1 <= |c.htm| <= MAX_HTM_BYTES
    && 1 <= |c.htu| <= MAX_HTU_BYTES
    && c.iat > 0
    && (c.ath.Some? ==> |c.ath.value| == SHA256_BASE64URL_BYTES)
    && (c.nonce.Some? ==> 1 <= |c.nonce.value| <= MAX_NONCE_BYTES)
  }

  /** The limits of the claims, each by itself. */
  lemma ShapeLimits(c: Claims)
    ensures WellShaped(c) <==>
              && c.jti != "" && |c.jti| < 257 && c.htm != "" && |c.htm| < 65 && c.htu != "" && |c.htu| < 2049
                 && !(c.iat <= 0)
              && !(exists hash :: c.ath == Some(hash) && |hash| != 43)
              && !(exists nonce :: c.nonce == Some(nonce) && (nonce == "" || |nonce| > 1024))
  {
  }

  /** `verify_freshness`: the error, if any. */
  function FreshnessError(iat: I64, now: I64, policy: Policy): Option<DpopError> {
    if iat <= 0 then Some(MalformedProof)
    else if now as int - iat as int > policy.maxAge then Some(ProofExpired)
    else if iat as int - now as int > policy.skew then Some(ProofFromFuture)
    else None
  }

  /** `verify_nonce`: the error, if any. */
  function NonceError(presented: Option<string>, required: Option<string>): Option<DpopError> {
    if required.None? then None
    else if presented.None? then Some(NonceRequired)
    else if presented.value != required.value then Some(NonceMismatch)
    else None
  }

  function TokenHashError(ports: Ports, presented: Option<string>, token: Option<string>): Option<DpopError> {
    if token.None? then None
    else if presented.None? then Some(AccessTokenHashMissing)
    else if presented.value != ports.tokenHash(token.value) then Some(AccessTokenHashMismatch)
    else None
  }

  function SignatureError(ports: Ports, proof: Proof): Option<DpopError> {
    if proof.typ != "dpop+jwt" then Some(MalformedProof)
    else if proof.alg != "ES256" then Some(UnsupportedAlgorithm)
    else if |proof.signature| != ES256_SIGNATURE_BYTES then Some(InvalidSignature)
    else
      match ports.signature(proof.jwk, proof.encodedHeader + "." + proof.encodedPayload, proof.signature)
      case Valid => None
      case BadKey => Some(UnsupportedKey)
      case BadSignature => Some(InvalidSignature)
  }

  function BindingError(ports: Ports, proof: Proof, request: Request): Option<DpopError> {
    if proof.claims.htm != request.verb then Some(MethodMismatch)
    else if NormalizeTarget(proof.claims.htu, ports.v6) != Some(request.target) then Some(TargetMismatch)
    else None
  }

  function IdentityOf(ports: Ports, proof: Proof, request: Request): Identity {
    Identity(ports.thumbprint(proof.jwk), request.verb, request.target, proof.claims.jti)
  }

  /** Everything `verify` does before it asks the replay store: the key and expiry it asks with. */
  function Admit(ports: Ports, policy: Policy, proof: Proof, request: Request, now: Option<I64>)
      : Result<(ReplayKey, I64)>
  {
    if SignatureError(ports, proof).Some? then Err(SignatureError(ports, proof).value)
    else if BindingError(ports, proof, request).Some? then Err(BindingError(ports, proof, request).value)
    else if now.None? then Err(ClockUnavailable)
    else if FreshnessError(proof.claims.iat, now.value, policy).Some? then
      Err(FreshnessError(proof.claims.iat, now.value, policy).value)
    else if NonceError(proof.claims.nonce, request.nonce).Some? then
      Err(NonceError(proof.claims.nonce, request.nonce).value)
    else if TokenHashError(ports, proof.claims.ath, request.accessToken).Some? then
      Err(TokenHashError(ports, proof.claims.ath, request.accessToken).value)
    else
      match ReplayKeyOf(ports, IdentityOf(ports, proof, request))
      case Err(e) => Err(e)
      case Ok(key) =>
        if proof.claims.iat as int + policy.maxAge as int > I64_MAX then Err(InvalidPolicy)
        else if proof.claims.iat as int + policy.maxAge as int < I64_MIN then Err(InvalidPolicy)
        else Ok((key, proof.claims.iat as int + policy.maxAge as int))
  }

  /** What `verify` makes of the store's answer. */
  function Conclude(ports: Ports, proof: Proof, request: Request, status: Status): Result<VerifiedProof> {
    match status
    case Failed => Err(ReplayStoreUnavailable)
    case Replay => Err(ReplayDetected)
    case Fresh =>
      Ok(VerifiedProof(ports.thumbprint(proof.jwk), proof.claims.iat, request.nonce.Some?, true,
                       request.accessToken.Some?))
  }

  /** `DpopVerifier::verify` with an in-memory store: `now` is the verifier's clock reading and
      `storeNow` the store's. */
  method Verify(ports: Ports, policy: Policy, proof: Proof, request: Request, now: Option<I64>,
                store: Memory.InMemoryReplayStore, storeNow: I64) returns (r: Result<VerifiedProof>)
    modifies store`entries
    ensures var admitted := Admit(ports, policy, proof, request, now);
            match admitted
            case Err(e) => r == Err(e) && store.entries == old(store.entries)
            case Ok((key, expiry)) =>
              && r == Conclude(ports, proof, request,
                 Memory.Answer(old(store.entries), store.capacity, key, expiry, storeNow))
              && store.entries == Memory.Next(old(store.entries), store.capacity, key, expiry, storeNow)
  {
    hide NormalizeTarget, ReplayKeyOf, IdentityParts;
    var signature := SignatureError(ports, proof);
    if signature.Some? {
      return Err(signature.value);
    }
    var binding := BindingError(ports, proof, request);
    if binding.Some? {
      return Err(binding.value);
    }
    if now.None? {
      return Err(ClockUnavailable);
    }
    var freshness := FreshnessError(proof.claims.iat, now.value, policy);
    if freshness.Some? {
      return Err(freshness.value);
    }
    var nonce := NonceError(proof.claims.nonce, request.nonce);
    if nonce.Some? {
      return Err(nonce.value);
    }
    var tokenHash := TokenHashError(ports, proof.claims.ath, request.accessToken);
    if tokenHash.Some? {
      return Err(tokenHash.value);
    }
    var key := DeriveReplayKey(ports, IdentityOf(ports, proof, request));
    if key.Err? {
      return Err(key.error);
    }
    var expiry := proof.claims.iat as int + policy.maxAge as int;
    if expiry > I64_MAX || expiry < I64_MIN {
      return Err(InvalidPolicy);
    }
    var status := store.CheckAndRecord(key.value, expiry, storeNow);
    match status
    case Failed => return Err(ReplayStoreUnavailable);
    case Replay => return Err(ReplayDetected);
    case Fresh =>
      return Ok(VerifiedProof(ports.thumbprint(proof.jwk), proof.claims.iat, request.nonce.Some?, true,
                              request.accessToken.Some?));
  }

  /** The checks of section 4.3 of RFC 9449, all of them and no more: what must hold of a proof for the store to be
      asked, and with what it is asked. */
  lemma AdmitsExactly(ports: Ports, policy: Policy, proof: Proof, request: Request, now: Option<I64>)
    ensures Admit(ports, policy, proof, request, now).Ok? <==>
              && proof.typ == "dpop+jwt" && proof.alg == "ES256" && |proof.signature| == ES256_SIGNATURE_BYTES
              && ports.signature(proof.jwk, proof.encodedHeader + "." + proof.encodedPayload, proof.signature).Valid?
              && proof.claims.htm == request.verb
              && NormalizeTarget(proof.claims.htu, ports.v6) == Some(request.target)
              && now.Some? && 0 < proof.claims.iat
              && proof.claims.iat as int - policy.skew as int <= now.value
              && now.value <= proof.claims.iat as int + policy.maxAge as int
              && (request.nonce.Some? ==> proof.claims.nonce == request.nonce)
              && (request.accessToken.Some? ==> proof.claims.ath == Some(ports.tokenHash(request.accessToken.value)))
              && Sized(IdentityParts(IdentityOf(ports, proof, request)))
              && proof.claims.iat as int + policy.maxAge as int <= I64_MAX
    ensures Admit(ports, policy, proof, request, now).Ok? ==>
              Admit(ports, policy, proof, request, now).value ==
              (ports.digest(Material(IdentityParts(IdentityOf(ports, proof, request)))),
               proof.claims.iat as int + policy.maxAge as int)
  {
    hide NormalizeTarget, Material, Sized, IdentityParts, IdentityOf;
  }

  // The checks one after another, each with those before it.

  predicate Typed(proof: Proof) {
    proof.typ == "dpop+jwt" && proof.alg == "ES256" && |proof.signature| == 64
  }

  predicate Signed(ports: Ports, proof: Proof) {
    Typed(proof)
    && ports.signature(proof.jwk, proof.encodedHeader + "." + proof.encodedPayload, proof.signature) == Valid
  }

  predicate BoundTo(ports: Ports, proof: Proof, request: Request) {
    && Signed(ports, proof) && proof.claims.htm == request.verb
    && NormalizeTarget(proof.claims.htu, ports.v6) == Some(request.target)
  }

  predicate Dated(ports: Ports, proof: Proof, request: Request, now: Option<I64>) {
    BoundTo(ports, proof, request) && now.Some? && 0 < proof.claims.iat
  }

  predicate InTime(ports: Ports, policy: Policy, proof: Proof, request: Request, now: Option<I64>) {
    && Dated(ports, proof, request, now)
    && proof.claims.iat as int - policy.skew as int <= now.value
    && now.value <= proof.claims.iat as int + policy.maxAge as int
  }

  predicate Challenged(ports: Ports, policy: Policy, proof: Proof, request: Request, now: Option<I64>) {
    InTime(ports, policy, proof, request, now) && (request.nonce.Some? ==> proof.claims.nonce == request.nonce)
  }

  predicate Hashed(ports: Ports, policy: Policy, proof: Proof, request: Request, now: Option<I64>) {
    && Challenged(ports, policy, proof, request, now)
    && (request.accessToken.Some? ==> proof.claims.ath == Some(ports.tokenHash(request.accessToken.value)))
  }

  /** Each refusal before the store is asked, exactly: the check that fails, and all those before it hold. */
  lemma SignatureRefusals(ports: Ports, policy: Policy, proof: Proof, request: Request, now: Option<I64>)
    ensures var r, check := Admit(ports, policy, proof, request, now),
                ports.signature(proof.jwk, proof.encodedHeader + "." + proof.encodedPayload, proof.signature);
            && (r == Err(UnsupportedAlgorithm) <==> proof.typ == "dpop+jwt" && proof.alg != "ES256")
            && (r == Err(InvalidSignature) <==>
                  && proof.typ == "dpop+jwt" && proof.alg == "ES256"
                  && (|proof.signature| != 64 || check == BadSignature))
            && (r == Err(UnsupportedKey) <==> Typed(proof) && check == BadKey)
  {
    hide NormalizeTarget, ReplayKeyOf;
  }

  lemma BindingRefusals(ports: Ports, policy: Policy, proof: Proof, request: Request, now: Option<I64>)
    ensures var r := Admit(ports, policy, proof, request, now);
            && (r == Err(MethodMismatch) <==> Signed(ports, proof) && proof.claims.htm != request.verb)
            && (r == Err(TargetMismatch) <==>
                  && Signed(ports, proof) && proof.claims.htm == request.verb
                  && NormalizeTarget(proof.claims.htu, ports.v6) != Some(request.target))
            && (r == Err(ClockUnavailable) <==> BoundTo(ports, proof, request) && now.None?)
  {
    hide NormalizeTarget, ReplayKeyOf;
  }

  lemma TimeRefusals(ports: Ports, policy: Policy, proof: Proof, request: Request, now: Option<I64>)
    requires ValidPolicy(policy)
    ensures var r := Admit(ports, policy, proof, request, now);
            && (r == Err(ProofExpired) <==>
                  && Dated(ports, proof, request, now)
                  && now.value > proof.claims.iat as int + policy.maxAge as int)
            && (r == Err(ProofFromFuture) <==>
                  && Dated(ports, proof, request, now)
                  && proof.claims.iat as int > now.value as int + policy.skew as int)
            && (r == Err(MalformedProof) <==>
                  || proof.typ != "dpop+jwt"
                  || (BoundTo(ports, proof, request) && now.Some? && proof.claims.iat <= 0)
                  || (Hashed(ports, policy, proof, request, now)
                     && !Sized(IdentityParts(IdentityOf(ports, proof, request)))))
  {
    hide NormalizeTarget, Material, Sized, IdentityParts, IdentityOf;
  }

  lemma NonceRefusals(ports: Ports, policy: Policy, proof: Proof, request: Request, now: Option<I64>)
    ensures var r := Admit(ports, policy, proof, request, now);
            && (r == Err(NonceRequired) <==>
                  InTime(ports, policy, proof, request, now) && request.nonce.Some? && proof.claims.nonce.None?)
            && (r == Err(NonceMismatch) <==>
                  && InTime(ports, policy, proof, request, now) && request.nonce.Some?
                  && proof.claims.nonce.Some? && proof.claims.nonce != request.nonce)
            && (r == Err(AccessTokenHashMissing) <==>
                  && Challenged(ports, policy, proof, request, now)
                  && request.accessToken.Some? && proof.claims.ath.None?)
            && (r == Err(AccessTokenHashMismatch) <==>
                  && Challenged(ports, policy, proof, request, now) && request.accessToken.Some?
                  && proof.claims.ath.Some? && proof.claims.ath.value != ports.tokenHash(request.accessToken.value))
            && (r == Err(InvalidPolicy) <==>
                  && Hashed(ports, policy, proof, request, now)
                  && Sized(IdentityParts(IdentityOf(ports, proof, request)))
                  && proof.claims.iat as int + policy.maxAge as int > I64_MAX)
  {
    hide NormalizeTarget, Material, Sized, IdentityParts, IdentityOf;
  }

  /** The expiry handed to the store is the end of the proof's own acceptance window: never in the
      past, at most the age and the skew ahead, and never negative. */
  lemma ExpiryWindow(ports: Ports, policy: Policy, proof: Proof, request: Request, now: I64)
    requires ValidPolicy(policy) && Admit(ports, policy, proof, request, Some(now)).Ok?
    ensures var expiry := Admit(ports, policy, proof, request, Some(now)).value.1;
            && now <= expiry <= now as int + policy.maxAge as int + policy.skew as int
            && 0 < expiry
            && forall later: I64 :: now <= later ==>
                 (FreshnessError(proof.claims.iat, later, policy).None? <==> later <= expiry)
  {
    hide NormalizeTarget, ReplayKeyOf;
  }

  // ---- Construction ----

  /** `validate_method`. */
  predicate ValidMethod(verb: string) {
    1 <= |verb| <= MAX_HTM_BYTES && forall i :: 0 <= i < |verb| ==> IsToken(verb[i])
  }

  /** From the other side: 1 to 64 visible characters, none of the delimiters of HTTP. */
  lemma MethodExactly(verb: string)
    ensures ValidMethod(verb) <==>
              1 <= |verb| <= 64 && forall c :: c in verb ==> '!' <= c <= '~' && c !in "\"(),/:;<=>?@[\\]{}"
  {
    hide IsToken;
    forall c ensures IsToken(c) <==> '!' <= c <= '~' && c !in "\"(),/:;<=>?@[\\]{}" {
      TokenClass(c);
    }
  }

  /** What the types `ProofId`, `DpopNonce` and `EffectiveRequestTarget` and the constructor of a
      request guarantee. */
  ghost predicate ValidRequest(ports: Ports, request: Request) {
    && ValidMethod(request.verb)
    && (exists uri :: NormalizeTarget(uri, ports.v6) == Some(request.target))
    && (request.nonce.Some? ==> 1 <= |request.nonce.value| <= MAX_NONCE_BYTES)
  }

  predicate ValidJti(jti: string) { 1 <= |jti| <= MAX_JTI_BYTES }

  /** A signing capability and the encoders of the two JSON parts. */
  datatype Signer = Signer(
    jwk: string, sign: string -> Option<string>, header: string -> string, payload: Claims -> string)

  function BuiltClaims(ports: Ports, request: Request, iat: I64, jti: string): Claims {
    Claims(jti, request.verb, request.target, iat,
           if request.accessToken.Some? then Some(ports.tokenHash(request.accessToken.value)) else None,
           request.nonce)
  }

  /** `DpopProofBuilder::build`. */
  function Build(ports: Ports, signer: Signer, request: Request, clock: Option<I64>, jti: Option<string>)
      : Result<Proof>
  {
    if clock.None? || clock.value <= 0 then Err(ClockUnavailable)
    else if jti.None? then Err(ProofIdUnavailable)
    else
      var claims := BuiltClaims(ports, request, clock.value, jti.value);
      var header, payload := signer.header(signer.jwk), signer.payload(claims);
      var input := header + "." + payload;
      match signer.sign(input)
      case None => Err(SignerFailure)
      case Some(signature) =>
        if |signature| != ES256_SIGNATURE_BYTES || !ports.signature(signer.jwk, input, signature).Valid?
        then Err(SignerFailure)
        else Ok(Proof("dpop+jwt", "ES256", signer.jwk, claims, header, payload, signature))
  }

  /** When the builder succeeds, what it puts into the proof, and each of its refusals. */
  lemma BuildsExactly(ports: Ports, signer: Signer, request: Request, clock: Option<I64>, jti: Option<string>)
    ensures var r := Build(ports, signer, request, clock, jti);
            && (r == Err(ClockUnavailable) <==> clock.None? || clock.value <= 0)
            && (r == Err(ProofIdUnavailable) <==> clock.Some? && clock.value > 0 && jti.None?)
            && (clock.Some? && clock.value > 0 && jti.Some? ==>
                  var token, hash := request.accessToken, ports.tokenHash;
                  var claims := Claims(jti.value, request.verb, request.target, clock.value,
                                       if token.Some? then Some(hash(token.value)) else None, request.nonce);
                  var header, payload := signer.header(signer.jwk), signer.payload(claims);
                  var signature := signer.sign(header + "." + payload);
                  if && signature.Some? && |signature.value| == 64
                     && ports.signature(signer.jwk, header + "." + payload, signature.value) == Valid
                  then r == Ok(Proof("dpop+jwt", "ES256", signer.jwk, claims, header, payload, signature.value))
                  else r == Err(SignerFailure))
  {
  }

  /** What the builder emits passes the parser's shape check exactly when the target fits the
      parser's limit. */
  lemma BuiltShape(ports: Ports, signer: Signer, request: Request, clock: Option<I64>, jti: Option<string>)
    requires ValidRequest(ports, request) && (jti.Some? ==> ValidJti(jti.value))
    requires forall token :: |ports.tokenHash(token)| == SHA256_BASE64URL_BYTES
    requires Build(ports, signer, request, clock, jti).Ok?
    ensures WellShaped(Build(ports, signer, request, clock, jti).value.claims) <==> |request.target| <= MAX_HTU_BYTES
  {
  }

  /** Within the limits of its parts an identity always has a replay key. */
  lemma IdentityKeyed(ports: Ports, id: Identity)
    requires |id.thumbprint| == 32 && |id.verb| <= MAX_HTM_BYTES && |id.target| <= MAX_TARGET_BYTES
    requires |id.jti| <= MAX_JTI_BYTES
    ensures ReplayKeyOf(ports, id) == Ok(ports.digest(Material(IdentityParts(id))))
  {
  }

  /** What the builder emits for a request is admitted for that request exactly when the target fits
      the limit, the clock is within the window and the end of the window is a time. */
  lemma BuiltAdmitted(ports: Ports, policy: Policy, signer: Signer, request: Request, clock: Option<I64>,
                      jti: Option<string>, now: I64)
    requires ValidPolicy(policy) && V6Canonical(ports.v6) && ValidRequest(ports, request)
    requires Build(ports, signer, request, clock, jti).Ok? && ValidJti(jti.value)
             && |ports.thumbprint(signer.jwk)| == 32
    ensures var proof := Build(ports, signer, request, clock, jti).value;
            Admit(ports, policy, proof, request, Some(now)).Ok? <==>
              && |request.target| <= MAX_TARGET_BYTES && clock.value as int + policy.maxAge as int <= I64_MAX
              && clock.value as int - policy.skew as int <= now <= clock.value as int + policy.maxAge as int
  {
    hide NormalizeTarget, ReplayKeyOf, V6Canonical, IsToken;
    var uri :| NormalizeTarget(uri, ports.v6) == Some(request.target);
    NormalizeTargetIdempotent(uri, ports.v6);
    if |request.target| <= MAX_TARGET_BYTES {
      IdentityKeyed(ports, IdentityOf(ports, Build(ports, signer, request, clock, jti).value, request));
    }
  }

  /** Build, then verify: within the size limit and the freshness window the proof is accepted exactly when the
      store's own clock is not past the window, the store does not hold the identity and it has room. The two
      clocks may differ either way. */
  lemma BuildThenVerify(ports: Ports, policy: Policy, signer: Signer, request: Request, clock: Option<I64>,
                        jti: Option<string>, now: I64, entries: Memory.Entries, capacity: nat, storeNow: I64)
    requires ValidPolicy(policy) && V6Canonical(ports.v6) && ValidRequest(ports, request)
    requires Build(ports, signer, request, clock, jti).Ok? && ValidJti(jti.value)
             && |ports.thumbprint(signer.jwk)| == 32
    requires |request.target| <= MAX_TARGET_BYTES
    requires clock.value as int + policy.maxAge as int <= I64_MAX
    requires clock.value as int - policy.skew as int <= now <= clock.value as int + policy.maxAge as int
    ensures var proof := Build(ports, signer, request, clock, jti).value;
            var admitted := Admit(ports, policy, proof, request, Some(now));
            && admitted.Ok?
            && var (key, expiry) := admitted.value;
               var verified := VerifiedProof(ports.thumbprint(signer.jwk), clock.value, request.nonce.Some?, true,
                                             request.accessToken.Some?);
               var kept := Memory.Retain(entries, storeNow);
               && ReplayKeyOf(ports, IdentityOf(ports, proof, request)) == Ok(key)
               && (Conclude(ports, proof, request, Memory.Answer(entries, capacity, key, expiry, storeNow))
                   == Ok(verified)
                   <==> storeNow <= clock.value as int + policy.maxAge as int && key !in kept && |kept| < capacity)
  {
    hide NormalizeTarget, V6Canonical, Material, Memory.Retain, IsToken;
    BuiltAdmitted(ports, policy, signer, request, clock, jti, now);
  }
}
