/** Nonce state on both sides and the client's retry budget
    (crates/keylix-dpop/src/state.rs, lines 135 to 464; crates/keylix-oauth/src/retry.rs;
    crates/keylix-oauth/src/client.rs, lines 254 to 331). */
module NonceStores {
  import opened Text

  datatype Namespace = AuthorizationServer | ResourceServer

  datatype NonceContext = NonceContext(namespace: Namespace, serverId: string)

  type Nonces = map<NonceContext, string>

  function Lookup(nonces: Nonces, context: NonceContext): Option<string> {
    if context in nonces then Some(nonces[context]) else None
  }

  /** A known context can always be updated; a new one needs room. */
  predicate HasRoom(nonces: Nonces, capacity: nat, context: NonceContext) {
    context in nonces || |nonces| < capacity
  }

  class InMemoryServerNonceStore {
    const capacity: nat
    var entries: Nonces

    constructor (capacity: nat)
      ensures this.capacity == capacity && entries == map[]
    {
      this.capacity := capacity;
      entries := map[];
    }

    /** `new`, which refuses a capacity of zero. */
    static method New(capacity: nat) returns (store: Option<InMemoryServerNonceStore>)
      ensures store.None? <==> capacity == 0
      ensures store.Some? ==> fresh(store.value) && store.value.capacity == capacity && store.value.entries == map[]
    {
      if capacity == 0 {
        return None;
      }
      var made := new InMemoryServerNonceStore(capacity);
      return Some(made);
    }

    /** `expected_nonce`: None when the store cannot be read. */
    method ExpectedNonce(context: NonceContext, readable: bool) returns (nonce: Option<Option<string>>)
      ensures nonce == if readable then Some(Lookup(entries, context)) else None
    {
      if !readable {
        return None;
      }
      if context in entries {
        return Some(Some(entries[context]));
      }
      return Some(None);
    }

    /** `issue_nonce`; `generated` is what the generator returns. */
    method IssueNonce(context: NonceContext, generated: Option<string>) returns (nonce: Option<string>)
      modifies this`entries
      ensures nonce == if context in old(entries) || |old(entries)| < capacity then generated else None
      ensures entries == if nonce.Some? then old(entries)[context := nonce.value] else old(entries)
      ensures |old(entries)| <= capacity ==> |entries| <= capacity
    {
      if generated.None? {
        return None;
      }
      if context !in entries && |entries| >= capacity {
        return None;
      }
      entries := entries[context := generated.value];
      return generated;
    }

    method Forget(context: NonceContext)
      modifies this`entries
      ensures entries == old(entries) - {context}
    {
      entries := entries - {context};
    }
  }

  class InMemoryClientNonceStore {
    const capacity: nat
    var entries: Nonces

    constructor (capacity: nat)
      ensures this.capacity == capacity && entries == map[]
    {
      this.capacity := capacity;
      entries := map[];
    }

    /** `new`, which refuses a capacity of zero. */
    static method New(capacity: nat) returns (store: Option<InMemoryClientNonceStore>)
      ensures store.None? <==> capacity == 0
      ensures store.Some? ==> fresh(store.value) && store.value.capacity == capacity && store.value.entries == map[]
    {
      if capacity == 0 {
        return None;
      }
      var made := new InMemoryClientNonceStore(capacity);
      return Some(made);
    }

    method NonceFor(context: NonceContext) returns (nonce: Option<string>)
      ensures nonce == Lookup(entries, context)
    {
      if context in entries {
        return Some(entries[context]);
      }
      return None;
    }

    /** `record_challenge`. */
    method RecordChallenge(context: NonceContext, nonce: string) returns (ok: bool)
      modifies this`entries
      ensures ok <==> context in old(entries) || |old(entries)| < capacity
      ensures entries == if ok then old(entries)[context := nonce] else old(entries)
      ensures |old(entries)| <= capacity ==> |entries| <= capacity
    {
      if context !in entries && |entries| >= capacity {
        return false;
      }
      entries := entries[context := nonce];
      return true;
    }

    /** `record_success`: a response without a nonce never relaxes the context. */
    method RecordSuccess(context: NonceContext, nonce: Option<string>) returns (ok: bool)
      modifies this`entries
      ensures nonce.None? ==> ok && entries == old(entries)
      ensures nonce.Some? ==> (ok <==> context in old(entries) || |old(entries)| < capacity)
      ensures nonce.Some? ==> entries == if ok then old(entries)[context := nonce.value] else old(entries)
    {
      if nonce.None? {
        return true;
      }
      ok := RecordChallenge(context, nonce.value);
    }

    method Forget(context: NonceContext)
      modifies this`entries
      ensures entries == old(entries) - {context}
    {
      entries := entries - {context};
    }
  }

  class NonceRetryBudget {
    var remaining: nat

    /** `single_retry`. */
    constructor ()
      ensures remaining == 1
    {
      remaining := 1;
    }

    method Consume() returns (ok: bool)
      modifies this
      ensures ok == (old(remaining) > 0)
      ensures remaining == if ok then old(remaining) - 1 else old(remaining)
    {
      if remaining == 0 {
        return false;
      }
      remaining := remaining - 1;
      return true;
    }
  }

  datatype RecordResult = Recorded | NonceRetryLimitExceeded | NonceStateUnavailable

  /** The client's state for one logical operation. */
  datatype ClientState = ClientState(nonces: Nonces, remaining: nat)

  function AfterChallenge(st: ClientState, capacity: nat, context: NonceContext, nonce: string)
      : (RecordResult, ClientState)
  {
    if st.remaining == 0 then (NonceRetryLimitExceeded, st)
    else if HasRoom(st.nonces, capacity, context) then
      (Recorded, ClientState(st.nonces[context := nonce], st.remaining - 1))
    else (NonceStateUnavailable, st.(remaining := st.remaining - 1))
  }

  /** `record_nonce_challenge`: the budget goes first, then the store. */
  method RecordNonceChallenge(store: InMemoryClientNonceStore, budget: NonceRetryBudget, context: NonceContext,
                              nonce: string)
      returns (r: RecordResult)
    modifies store`entries, budget
    ensures (r, ClientState(store.entries, budget.remaining)) ==
            AfterChallenge(ClientState(old(store.entries), old(budget.remaining)), store.capacity, context, nonce)
  {
    var granted := budget.Consume();
    if !granted {
      return NonceRetryLimitExceeded;
    }
    var ok := store.RecordChallenge(context, nonce);
    return if ok then Recorded else NonceStateUnavailable;
  }

  /** One challenge: refused without change when the budget is spent, otherwise one retry is spent, and the nonce is
      held exactly if its context is known or there is room. */
  lemma ChallengeExactly(st: ClientState, capacity: nat, context: NonceContext, nonce: string)
    ensures var (r, after) := AfterChallenge(st, capacity, context, nonce);
            && (r == NonceRetryLimitExceeded <==> st.remaining == 0)
            && (r == Recorded <==> st.remaining > 0 && (context in st.nonces || |st.nonces| < capacity))
            && (r == NonceRetryLimitExceeded ==> after == st)
            && (r != NonceRetryLimitExceeded ==> after.remaining == st.remaining - 1)
            && after.nonces == if r == Recorded then st.nonces[context := nonce] else st.nonces
  {
  }

  datatype Challenge = Challenge(context: NonceContext, nonce: string)

  /** A logical operation that meets one challenge after another. */
  function Challenged(st: ClientState, capacity: nat, cs: seq<Challenge>): (r: (seq<RecordResult>, ClientState))
    ensures |r.0| == |cs|
  {
    if cs == [] then ([], st)
    else
      var n := |cs| - 1;
      var (results, mid) := Challenged(st, capacity, cs[..n]);
      var (result, end) := AfterChallenge(mid, capacity, cs[n].context, cs[n].nonce);
      (results + [result], end)
  }

  function CountRecorded(rs: seq<RecordResult>): nat {
    if rs == [] then 0
    else CountRecorded(rs[..|rs| - 1]) + if rs[|rs| - 1].Recorded? then 1 else 0
  }

  /** A budget bounds the challenges recorded over the whole operation, whatever the peer sends; once
      it is spent the nonce state does not change. */
  lemma {:induction false} RetriesBounded(st: ClientState, capacity: nat, cs: seq<Challenge>)
    ensures var (results, end) := Challenged(st, capacity, cs);
            && CountRecorded(results) + end.remaining <= st.remaining
            && end.remaining == (if |cs| < st.remaining then st.remaining - |cs| else 0)
            && (st.remaining == 0 ==> end == st)
            && (|cs| >= 1 && st.remaining == 1 ==>
                  end == AfterChallenge(st, capacity, cs[0].context, cs[0].nonce).1)
  {
    hide AfterChallenge, Challenged, CountRecorded;
    ChallengedStep(st, capacity, cs);
    if cs != [] {
      var n := |cs| - 1;
      RetriesBounded(st, capacity, cs[..n]);
      var (results, mid) := Challenged(st, capacity, cs[..n]);
      ChallengeExactly(mid, capacity, cs[n].context, cs[n].nonce);
      if n >= 1 {
        assert cs[..n][0] == cs[0];
      } else {
        ChallengedStep(st, capacity, cs[..n]);
      }
    }
  }

  /** One more challenge. */
  lemma ChallengedStep(st: ClientState, capacity: nat, cs: seq<Challenge>)
    ensures cs == [] ==> Challenged(st, capacity, cs) == ([], st) && CountRecorded([]) == 0
    ensures cs != [] ==>
              var n := |cs| - 1;
              var (results, mid) := Challenged(st, capacity, cs[..n]);
              var (result, end) := AfterChallenge(mid, capacity, cs[n].context, cs[n].nonce);
              && Challenged(st, capacity, cs) == (results + [result], end)
              && CountRecorded(results + [result]) == CountRecorded(results) + if result.Recorded? then 1 else 0
  {
    hide AfterChallenge;
    if cs != [] {
      var n := |cs| - 1;
      var (results, mid) := Challenged(st, capacity, cs[..n]);
      var result := AfterChallenge(mid, capacity, cs[n].context, cs[n].nonce).0;
      assert (results + [result])[..|results|] == results;
    }
  }
}
