/** Authenticated request and response frames between a host and the verifier
    (crates/keylix-verifier/src/lib.rs, lines 336 to 659). */
module PeerIpc {
  import opened Text

  const VERIFIER_PROTOCOL_VERSION := 1
  const MAX_PAYLOAD_BYTES := 32 * 1024
  const MAX_ENVELOPE_BYTES := MAX_PAYLOAD_BYTES * 2
  const CORRELATION_BYTES := 32
  const MAC_BYTES := 32
  const REQUEST_DOMAIN := "keylix-verifier-request-v1\0"
  const RESPONSE_DOMAIN := "keylix-verifier-response-v1\0"

  datatype IpcFailure = MalformedEnvelope | UnauthorizedPeer

  datatype Result<+T> = Ok(value: T) | Err(error: IpcFailure)

  datatype Peer = Peer(id: string, key: string)

  datatype Envelope = Envelope(version: nat, peerId: string, correlation: string, payload: string, mac: string)

  /** An authenticated message. */
  datatype Message = Message(peerId: string, correlation: string, payload: string)

  /** The libraries: base64url, the JSON reader and HMAC. */
  datatype Codec = Codec(
    encode: string -> string,
    decode: string -> Option<string>,
    read: string -> Option<Envelope>,
    hmac: (string, string) -> string)

  function Quote(s: string): string { "\"" + s + "\"" }

  /** The JSON text of an envelope whose strings need no escapes. */
  function Json(e: Envelope): string {
    "{\"version\":" + Decimal(e.version) + ",\"peer_id\":" + Quote(e.peerId)
    + ",\"correlation_base64url\":" + Quote(e.correlation) + ",\"payload_base64url\":" + Quote(e.payload)
    + ",\"mac_base64url\":" + Quote(e.mac) + "}"
  }

  /** Letters, digits, '-', '_' and '.': needs no escape, and holds no NUL. */
  predicate PlainChar(c: char) {
    IsDigit(c) || IsUpper(c) || IsLower(c) || c == '-' || c == '_' || c == '.'
  }

  predicate Plain(s: string) {
    forall i :: 0 <= i < |s| ==> PlainChar(s[i])
  }

  /** What is assumed of base64url without padding: on bytes it is invertible, of known length and plain. */
  ghost predicate Base64(c: Codec) {
    forall x :: IsBytes(x) ==>
        c.decode(c.encode(x)) == Some(x) && 3 * |c.encode(x)| <= 4 * |x| + 2 && Plain(c.encode(x))
  }

  /** What is assumed of the JSON reader: it reads back plain envelopes. */
  ghost predicate ReadsBack(c: Codec) {
    forall e: Envelope :: Plain(e.peerId) && Plain(e.correlation) && Plain(e.payload) && Plain(e.mac) ==>
        c.read(Json(e)) == Some(e)
  }

  ghost predicate MacSized(c: Codec) {
    forall k, m :: |c.hmac(k, m)| == MAC_BYTES && IsBytes(c.hmac(k, m))
  }

  /** `valid_peer_id`. */
  predicate ValidPeerId(id: string) { 1 <= |id| <= 64 && Plain(id) }

  function FindPeer(peers: seq<Peer>, id: string): (r: Option<Peer>)
    ensures r.Some? ==> r.value in peers && r.value.id == id
    ensures r.None? ==> forall p :: p in peers ==> p.id != id
  {
    if peers == [] then None
    else if peers[0].id == id then Some(peers[0])
    else FindPeer(peers[1..], id)
  }

  predicate ValidPeers(peers: seq<Peer>) {
    && (forall i :: 0 <= i < |peers| ==> ValidPeerId(peers[i].id))
    && (forall i, j :: 0 <= i < j < |peers| ==> peers[i].id != peers[j].id)
  }

  /** A peer credential document: each peer's identifier and encoded secret. */
  datatype PeerDocument = PeerDocument(schemaVersion: nat, peers: seq<(string, string)>)

  const MAX_CREDENTIAL_DOCUMENT_BYTES := 16 * 1024
  const MAX_PEERS := 16

  /** A document whose peers can be loaded. */
  predicate Loadable(c: Codec, d: PeerDocument) {
    && d.schemaVersion == 1 && 1 <= |d.peers| <= 16
    && (forall i :: 0 <= i < |d.peers| ==>
          && 1 <= |d.peers[i].0| <= 64 && Plain(d.peers[i].0)
          && var secret := c.decode(d.peers[i].1);
             secret.Some? && |secret.value| == 32 && c.encode(secret.value) == d.peers[i].1)
    && (forall i, j :: 0 <= i < j < |d.peers| ==> d.peers[i].0 != d.peers[j].0)
  }

  /** `from_json`, with the JSON reader as an argument: the input is of 1 to 16384 bytes and of this version,
      identifiers are valid and unique, secrets are canonical and of 32 bytes; otherwise the whole document is
      refused. */
  method LoadPeers(c: Codec, read: string -> Option<PeerDocument>, input: string) returns (r: Option<seq<Peer>>)
    ensures r.Some? <==>
            1 <= |input| <= 16384 && read(input).Some? && Loadable(c, read(input).value)
    ensures r.Some? ==> ValidPeers(r.value) && |r.value| == |read(input).value.peers|
    ensures r.Some? ==> forall i :: 0 <= i < |r.value| ==>
              && r.value[i].id == read(input).value.peers[i].0
              && c.decode(read(input).value.peers[i].1) == Some(r.value[i].key)
  {
    if |input| == 0 || |input| > MAX_CREDENTIAL_DOCUMENT_BYTES || read(input).None? {
      return None;
    }
    var document := read(input).value;
    if document.schemaVersion != VERIFIER_PROTOCOL_VERSION || |document.peers| == 0 || |document.peers| > MAX_PEERS {
      return None;
    }
    var config := document.peers;
    var peers: seq<Peer> := [];
    for n := 0 to |config|
      invariant |peers| == n && ValidPeers(peers)
      invariant forall i :: 0 <= i < n ==> peers[i].id == config[i].0 && c.decode(config[i].1) == Some(peers[i].key)
      invariant forall i :: 0 <= i < n ==> CanonicalSecret(c, config[i].1)
    {
      var (id, secret) := config[n];
      if !ValidPeerId(id) || FindPeer(peers, id).Some? {
        if FindPeer(peers, id).Some? {
          var p := FindPeer(peers, id).value;
          ghost var i :| 0 <= i < n && peers[i] == p;
          assert config[i].0 == config[n].0;
        }
        return None;
      }
      if !CanonicalSecret(c, secret) {
        return None;
      }
      peers := peers + [Peer(id, c.decode(secret).value)];
    }
    return Some(peers);
  }

  predicate CanonicalSecret(c: Codec, secret: string) {
    c.decode(secret).Some? && |c.decode(secret).value| == 32 && c.encode(c.decode(secret).value) == secret
  }

  // ---- The MAC ----

  /** The bytes under the MAC. */
  function MacInput(domain: string, id: string, correlation: string, payload: string): string {
    domain + id + "\0" + correlation + payload
  }

  /** Until the first NUL: nothing before it is one. */
  lemma CutAtNul(a: string, b: string, s: string, t: string)
    requires Excludes(a, {'\0'}) && Excludes(b, {'\0'}) && a + "\0" + s == b + "\0" + t
    ensures a == b && s == t
  {
    var u := a + "\0" + s;
    assert u[|a|] == '\0' && u[|b|] == '\0';
    FindFirstIs(u, {'\0'}, |a|);
    FindFirstIs(u, {'\0'}, |b|);
    assert u[..|a|] == a && u[..|b|] == b && u[|a| + 1..] == s && u[|b| + 1..] == t;
  }

  lemma SameDomain(d: string, d': string, x: string, y: string)
    requires d in {REQUEST_DOMAIN, RESPONSE_DOMAIN} && d' in {REQUEST_DOMAIN, RESPONSE_DOMAIN} && d + x == d' + y
    ensures d == d' && x == y
  {
    assert REQUEST_DOMAIN[18] == 'q' && RESPONSE_DOMAIN[18] == 's';
    assert (d + x)[18] == d[18] && (d' + y)[18] == d'[18];
    assert (d + x)[|d|..] == x && (d' + y)[|d'|..] == y;
  }

  /** The MAC input determines the domain, the peer, the correlation and the payload. */
  lemma MacInputInjective(d: string, id: string, corr: string, payload: string,
                          d': string, id': string, corr': string, payload': string)
    requires d in {REQUEST_DOMAIN, RESPONSE_DOMAIN} && d' in {REQUEST_DOMAIN, RESPONSE_DOMAIN}
    requires Plain(id) && Plain(id') && |corr| == CORRELATION_BYTES && |corr'| == CORRELATION_BYTES
    requires MacInput(d, id, corr, payload) == MacInput(d', id', corr', payload')
    ensures d == d' && id == id' && corr == corr' && payload == payload'
  {
    var x, y := id + "\0" + (corr + payload), id' + "\0" + (corr' + payload');
    assert MacInput(d, id, corr, payload) == d + x && MacInput(d', id', corr', payload') == d' + y;
    SameDomain(d, d', x, y);
    CutAtNul(id, id', corr + payload, corr' + payload');
    assert (corr + payload)[..32] == corr && (corr' + payload')[..32] == corr';
    assert (corr + payload)[32..] == payload && (corr' + payload')[32..] == payload';
  }

  // ---- Sealing and opening ----

  /** `seal`. */
  function Seal(c: Codec, peers: seq<Peer>, id: string, correlation: string, payload: string, domain: string)
      : Result<string>
  {
    if payload == "" || |payload| > MAX_PAYLOAD_BYTES then Err(MalformedEnvelope)
    else
      match FindPeer(peers, id)
      case None => Err(UnauthorizedPeer)
      case Some(peer) =>
        var mac := c.hmac(peer.key, MacInput(domain, id, correlation, payload));
        Ok(Json(Envelope(VERIFIER_PROTOCOL_VERSION, id, c.encode(correlation), c.encode(payload), c.encode(mac))))
  }

  /** A field that decodes to `n` bytes and is spelled canonically. */
  function DecodeExact(c: Codec, text: string, n: nat): Option<string> {
    match c.decode(text)
    case None => None
    case Some(bytes) => if |bytes| == n && c.encode(bytes) == text then Some(bytes) else None
  }

  /** `open`. */
  function Open(c: Codec, peers: seq<Peer>, input: string, domain: string): Result<Message> {
    if input == "" || |input| > MAX_ENVELOPE_BYTES || c.read(input).None? then Err(MalformedEnvelope)
    else
      var e := c.read(input).value;
      var correlation := DecodeExact(c, e.correlation, CORRELATION_BYTES);
      var payload := c.decode(e.payload);
      var mac := DecodeExact(c, e.mac, MAC_BYTES);
      if e.version != VERIFIER_PROTOCOL_VERSION || !ValidPeerId(e.peerId) || correlation.None? || payload.None?
         || payload.value == "" || |payload.value| > MAX_PAYLOAD_BYTES || mac.None? then Err(MalformedEnvelope)
      else
        match FindPeer(peers, e.peerId)
        case None => Err(UnauthorizedPeer)
        case Some(peer) =>
          if mac.value != c.hmac(peer.key, MacInput(domain, peer.id, correlation.value, payload.value))
          then Err(UnauthorizedPeer)
          else Ok(Message(peer.id, correlation.value, payload.value))
  }

  /** A sealed frame fits the frame limit with room for its newline. */
  lemma SealedFits(c: Codec, peers: seq<Peer>, id: string, correlation: string, payload: string, domain: string)
    requires Base64(c) && MacSized(c) && ValidPeers(peers) && |correlation| == CORRELATION_BYTES
    requires IsBytes(correlation) && IsBytes(payload) && Seal(c, peers, id, correlation, payload, domain).Ok?
    ensures 1 <= |Seal(c, peers, id, correlation, payload, domain).value| <= 65535
  {
  }

  predicate Knows(peers: seq<Peer>, id: string) {
    exists p :: p in peers && p.id == id
  }

  /** What can be sealed, and each refusal. */
  lemma SealsExactly(c: Codec, peers: seq<Peer>, id: string, correlation: string, payload: string, domain: string)
    ensures var r := Seal(c, peers, id, correlation, payload, domain);
            && (r.Ok? <==> 1 <= |payload| <= 32 * 1024 && Knows(peers, id))
            && (r == Err(MalformedEnvelope) <==> payload == "" || |payload| > 32 * 1024)
            && (r == Err(UnauthorizedPeer) <==> 1 <= |payload| <= 32 * 1024 && !Knows(peers, id))
  {
    hide Json, MacInput;
    var _ := FindPeer(peers, id);
  }

  /** The text of a sealed frame, written out. */
  lemma SealedText(c: Codec, peers: seq<Peer>, peer: Peer, correlation: string, payload: string, response: bool)
    requires ValidPeers(peers) && peer in peers && 1 <= |payload| <= 32 * 1024
    ensures var domain := if response then "keylix-verifier-response-v1\0" else "keylix-verifier-request-v1\0";
            var mac := c.hmac(peer.key, domain + peer.id + "\0" + correlation + payload);
            Seal(c, peers, peer.id, correlation, payload, if response then RESPONSE_DOMAIN else REQUEST_DOMAIN) ==
            Ok("{\"version\":1,\"peer_id\":" + ("\"" + peer.id + "\"")
               + ",\"correlation_base64url\":" + ("\"" + c.encode(correlation) + "\"")
               + ",\"payload_base64url\":" + ("\"" + c.encode(payload) + "\"")
               + ",\"mac_base64url\":" + ("\"" + c.encode(mac) + "\"") + "}")
  {
    TheOnlyPeer(peers, peer);
    DigitTable(1);
    assert "{\"version\":" + Decimal(1) + ",\"peer_id\":" == "{\"version\":1,\"peer_id\":";
  }

  lemma TheOnlyPeer(peers: seq<Peer>, peer: Peer)
    requires ValidPeers(peers) && peer in peers
    ensures FindPeer(peers, peer.id) == Some(peer)
  {
    var i :| 0 <= i < |peers| && peers[i] == peer;
    var found := FindPeer(peers, peer.id).value;
    var j :| 0 <= j < |peers| && peers[j] == found;
  }

  /** Every payload that can be sealed opens, in its own domain, to exactly what was sealed. */
  lemma SealOpens(c: Codec, peers: seq<Peer>, id: string, correlation: string, payload: string, domain: string)
    requires Base64(c) && ReadsBack(c) && MacSized(c) && ValidPeers(peers) && |correlation| == CORRELATION_BYTES
    requires IsBytes(correlation) && IsBytes(payload) && 1 <= |payload| <= 32 * 1024 && Knows(peers, id)
    ensures var r := Seal(c, peers, id, correlation, payload, domain);
            r.Ok? && Open(c, peers, r.value, domain) == Ok(Message(id, correlation, payload))
  {
    SealsExactly(c, peers, id, correlation, payload, domain);
    SealedFits(c, peers, id, correlation, payload, domain);
    var peer := FindPeer(peers, id).value;
    var mac := c.hmac(peer.key, MacInput(domain, id, correlation, payload));
    var e := Envelope(VERIFIER_PROTOCOL_VERSION, id, c.encode(correlation), c.encode(payload), c.encode(mac));
    assert c.read(Json(e)) == Some(e);
  }

  /** An envelope with this correlation and payload, of this version, from a valid identifier, in canonical spelling. */
  predicate WellFormed(c: Codec, e: Envelope, correlation: string, payload: string) {
    && e.version == 1 && 1 <= |e.peerId| <= 64 && Plain(e.peerId)
    && |correlation| == 32 && c.decode(e.correlation) == Some(correlation) && c.encode(correlation) == e.correlation
    && 1 <= |payload| <= 32 * 1024 && c.decode(e.payload) == Some(payload)
    && c.decode(e.mac).Some? && |c.decode(e.mac).value| == 32 && c.encode(c.decode(e.mac).value) == e.mac
  }

  /** What opens, and to what. */
  lemma OpensExactly(c: Codec, peers: seq<Peer>, input: string, domain: string, m: Message)
    requires ValidPeers(peers)
    ensures Open(c, peers, input, domain) == Ok(m) <==>
              && 1 <= |input| <= 64 * 1024 && c.read(input).Some?
              && var e := c.read(input).value;
                 && e.peerId == m.peerId && WellFormed(c, e, m.correlation, m.payload)
                 && var input := domain + m.peerId + "\0" + m.correlation + m.payload;
                    exists p :: p in peers && p.id == m.peerId && c.decode(e.mac) == Some(c.hmac(p.key, input))
  {
    hide Json;
    if c.read(input).Some? {
      var id := c.read(input).value.peerId;
      var found := FindPeer(peers, id);
      forall p | p in peers && p.id == id ensures found == Some(p) {
        TheOnlyPeer(peers, p);
      }
    }
  }

  /** A well-formed envelope that does not open is of an unknown peer or carries a wrong MAC; anything else is
      malformed. */
  lemma OpenRefusals(c: Codec, peers: seq<Peer>, input: string, domain: string)
    ensures Open(c, peers, input, domain) == Err(MalformedEnvelope) <==>
              !(&& 1 <= |input| <= 64 * 1024 && c.read(input).Some?
                && var e := c.read(input).value;
                   && c.decode(e.correlation).Some? && c.decode(e.payload).Some?
                   && WellFormed(c, e, c.decode(e.correlation).value, c.decode(e.payload).value))
  {
    hide Json, MacInput, FindPeer;
  }

  /** Identifiers hold letters, digits, '-', '_' and '.', and none of the other visible characters. */
  lemma PlainClass(ch: char)
    ensures PlainChar(ch) <==> '!' <= ch <= '~' && ch !in "!\"#$%&'()*+,/:;<=>?@[\\]^`{|}~"
  {
  }

  // ---- Exchanges over a hostile network ----

  /** A request on its way: the client keeps this until a response is matched to it. */
  datatype Sealed = Sealed(peerId: string, correlation: string, payload: string)

  datatype Answered = Answered(request: Message, payload: string)

  datatype Accepted = Accepted(request: Sealed, response: Message)

  /** Everything that happened: the MACs that were computed, as pairs of key and input, the requests
      sealed, those still waiting, those the server authenticated, its answers, and the responses
      that clients accepted. */
  datatype World = World(
    issued: set<(string, string)>,
    requests: seq<Sealed>,
    waiting: set<Sealed>,
    authenticated: seq<Message>,
    answered: seq<Answered>,
    accepted: seq<Accepted>)

  datatype Event =
    | SendRequest(request: Sealed)
    | ServerReads(frame: string)
    | ServerAnswers(message: Message, payload: string)
    | ClientReads(request: Sealed, frame: string)

  /** The key and the input whose MAC a frame claims to carry. */
  function ClaimedMac(c: Codec, peers: seq<Peer>, frame: string, domain: string): Option<(string, string)> {
    match c.read(frame)
    case None => None
    case Some(e) =>
      var peer, correlation, payload := FindPeer(peers, e.peerId), c.decode(e.correlation), c.decode(e.payload);
      if peer.None? || correlation.None? || payload.None? then None
      else Some((peer.value.key, MacInput(domain, e.peerId, correlation.value, payload.value)))
  }

  /** The frame carries the MAC that it claims. */
  predicate CarriesMac(c: Codec, peers: seq<Peer>, frame: string, domain: string) {
    var claimed := ClaimedMac(c, peers, frame, domain);
    claimed.Some? && c.decode(c.read(frame).value.mac) == Some(c.hmac(claimed.value.0, claimed.value.1))
  }

  /** An ideal MAC: a frame carries the MAC that it claims only if somebody computed that MAC. The network may
      deliver any other bytes at any time, old or new, in any order, any number of times. */
  predicate Ideal(c: Codec, peers: seq<Peer>, w: World, frame: string, domain: string) {
    CarriesMac(c, peers, frame, domain) ==> ClaimedMac(c, peers, frame, domain).value in w.issued
  }

  /** `seal_request` with a correlation never used before, `open_request`, `seal_response` for an
      authenticated request, and `open_response_for_request`, which uses the request up. */
  predicate Step(c: Codec, peers: seq<Peer>, w: World, e: Event, w': World) {
    match e
    case SendRequest(r) =>
      && |r.correlation| == CORRELATION_BYTES
      && (forall i :: 0 <= i < |w.requests| ==> w.requests[i].correlation != r.correlation)
      && Seal(c, peers, r.peerId, r.correlation, r.payload, REQUEST_DOMAIN).Ok?
      && w' == w.(issued := w.issued + {MacOf(peers, r.peerId, r.correlation, r.payload, REQUEST_DOMAIN)},
                  requests := w.requests + [r], waiting := w.waiting + {r})
    case ServerReads(frame) =>
      && Ideal(c, peers, w, frame, REQUEST_DOMAIN)
      && var m := Open(c, peers, frame, REQUEST_DOMAIN);
         w' == if m.Ok? then w.(authenticated := w.authenticated + [m.value]) else w
    case ServerAnswers(m, payload) =>
      && m in w.authenticated
      && Seal(c, peers, m.peerId, m.correlation, payload, RESPONSE_DOMAIN).Ok?
      && w' == w.(issued := w.issued + {MacOf(peers, m.peerId, m.correlation, payload, RESPONSE_DOMAIN)},
                  answered := w.answered + [Answered(m, payload)])
    case ClientReads(r, frame) =>
      && r in w.waiting && Ideal(c, peers, w, frame, RESPONSE_DOMAIN)
      && var m := OpenResponse(c, peers, r, frame);
         w' == w.(waiting := w.waiting - {r}, accepted := w.accepted + if m.Ok? then [Accepted(r, m.value)] else [])
  }

  /** `open_response_for_request`. */
  function OpenResponse(c: Codec, peers: seq<Peer>, r: Sealed, frame: string): Result<Message> {
    match Open(c, peers, frame, RESPONSE_DOMAIN)
    case Err(e) => Err(e)
    case Ok(m) => if m.peerId != r.peerId || m.correlation != r.correlation then Err(UnauthorizedPeer) else Ok(m)
  }

  function MacOf(peers: seq<Peer>, id: string, correlation: string, payload: string, domain: string): (string, string) {
    var peer := FindPeer(peers, id);
    (if peer.Some? then peer.value.key else "", MacInput(domain, id, correlation, payload))
  }

  /** Where an issued MAC comes from. */
  predicate FromRequest(w: World, mac: (string, string), r: Sealed) {
    r in w.requests && mac.1 == MacInput(REQUEST_DOMAIN, r.peerId, r.correlation, r.payload)
  }

  predicate FromAnswer(w: World, mac: (string, string), a: Answered) {
    a in w.answered && mac.1 == MacInput(RESPONSE_DOMAIN, a.request.peerId, a.request.correlation, a.payload)
  }

  /** What is answered was asked: a request with the same peer, correlation and payload. */
  predicate Asked(w: World, m: Message) {
    Sealed(m.peerId, m.correlation, m.payload) in w.requests
  }

  /** The response was made for this very request. */
  predicate Genuine(w: World, a: Accepted) {
    && a.response.peerId == a.request.peerId && a.response.correlation == a.request.correlation
    && Answered(Message(a.request.peerId, a.request.correlation, a.request.payload), a.response.payload) in w.answered
  }

  ghost predicate Inv(w: World) {
    && Origins(w)
    && (forall r :: r in w.requests ==> Plain(r.peerId) && |r.correlation| == CORRELATION_BYTES)
    && (forall i, j :: 0 <= i < j < |w.requests| ==> w.requests[i].correlation != w.requests[j].correlation)
    && (forall r :: r in w.waiting ==> r in w.requests)
    && (forall m :: m in w.authenticated ==> Asked(w, m))
    && (forall a :: a in w.answered ==> Asked(w, a.request))
    && (forall a :: a in w.accepted ==> a.request in w.requests && a.request !in w.waiting && Genuine(w, a))
    && (forall i, j :: 0 <= i < j < |w.accepted| ==> w.accepted[i].request != w.accepted[j].request)
  }

  /** What opens is well formed and carries the MAC that it claims. */
  lemma OpenShape(c: Codec, peers: seq<Peer>, frame: string, domain: string)
    requires Open(c, peers, frame, domain).Ok?
    ensures var m := Open(c, peers, frame, domain).value;
            && Plain(m.peerId) && |m.correlation| == CORRELATION_BYTES && FindPeer(peers, m.peerId).Some?
            && CarriesMac(c, peers, frame, domain)
            && ClaimedMac(c, peers, frame, domain) ==
               Some((FindPeer(peers, m.peerId).value.key, MacInput(domain, m.peerId, m.correlation, m.payload)))
  {
    hide Json, MacInput;
  }

  /** A message that opens in the request domain was sealed as a request. */
  lemma OpenedRequestWasAsked(c: Codec, peers: seq<Peer>, w: World, frame: string)
    requires Inv(w) && Ideal(c, peers, w, frame, REQUEST_DOMAIN) && Open(c, peers, frame, REQUEST_DOMAIN).Ok?
    ensures Asked(w, Open(c, peers, frame, REQUEST_DOMAIN).value)
  {
    hide Open, MacInput, Plain, CarriesMac, ClaimedMac;
    var m := Open(c, peers, frame, REQUEST_DOMAIN).value;
    OpenShape(c, peers, frame, REQUEST_DOMAIN);
    var mac := (FindPeer(peers, m.peerId).value.key, MacInput(REQUEST_DOMAIN, m.peerId, m.correlation, m.payload));
    assert mac in w.issued && HasOrigin(w, mac);
    if a :| FromAnswer(w, mac, a) {
      var s := Sealed(a.request.peerId, a.request.correlation, a.request.payload);
      assert Asked(w, a.request) && s in w.requests;
      MacInputInjective(REQUEST_DOMAIN, m.peerId, m.correlation, m.payload,
                        RESPONSE_DOMAIN, a.request.peerId, a.request.correlation, a.payload);
    } else {
      var r :| FromRequest(w, mac, r);
      MacInputInjective(REQUEST_DOMAIN, m.peerId, m.correlation, m.payload, REQUEST_DOMAIN, r.peerId, r.correlation,
          r.payload);
    }
  }

  /** A message that opens in the response domain was made as an answer. */
  lemma OpenedResponseWasAnswered(c: Codec, peers: seq<Peer>, w: World, frame: string) returns (a: Answered)
    requires Inv(w) && Ideal(c, peers, w, frame, RESPONSE_DOMAIN) && Open(c, peers, frame, RESPONSE_DOMAIN).Ok?
    ensures var m := Open(c, peers, frame, RESPONSE_DOMAIN).value;
            && a in w.answered && a.request.peerId == m.peerId && a.request.correlation == m.correlation
            && a.payload == m.payload
  {
    hide Open, MacInput, Plain, CarriesMac, ClaimedMac;
    var m := Open(c, peers, frame, RESPONSE_DOMAIN).value;
    OpenShape(c, peers, frame, RESPONSE_DOMAIN);
    var mac := (FindPeer(peers, m.peerId).value.key, MacInput(RESPONSE_DOMAIN, m.peerId, m.correlation, m.payload));
    assert mac in w.issued && HasOrigin(w, mac);
    if r :| FromRequest(w, mac, r) {
      MacInputInjective(RESPONSE_DOMAIN, m.peerId, m.correlation, m.payload, REQUEST_DOMAIN, r.peerId, r.correlation,
          r.payload);
    }
    a :| FromAnswer(w, mac, a);
    var s := Sealed(a.request.peerId, a.request.correlation, a.request.payload);
    assert Asked(w, a.request) && s in w.requests;
    MacInputInjective(RESPONSE_DOMAIN, m.peerId, m.correlation, m.payload,
                      RESPONSE_DOMAIN, a.request.peerId, a.request.correlation, a.payload);
  }

  lemma SameCorrelation(w: World, r: Sealed, s: Sealed)
    requires Inv(w) && r in w.requests && s in w.requests && r.correlation == s.correlation
    ensures r == s
  {
  }

  /** An accepted response answers the request it was matched to. */
  lemma AcceptedIsGenuine(c: Codec, peers: seq<Peer>, w: World, r: Sealed, frame: string)
    requires Inv(w) && r in w.requests && Ideal(c, peers, w, frame, RESPONSE_DOMAIN)
             && OpenResponse(c, peers, r, frame).Ok?
    ensures Genuine(w, Accepted(r, OpenResponse(c, peers, r, frame).value))
  {
    hide Open;
    var a := OpenedResponseWasAnswered(c, peers, w, frame);
    assert Asked(w, a.request);
    SameCorrelation(w, r, Sealed(a.request.peerId, a.request.correlation, a.request.payload));
    assert a == Answered(Message(r.peerId, r.correlation, r.payload), OpenResponse(c, peers, r, frame).value.payload);
  }

  /** Every MAC comes from a request or from an answer. */
  ghost predicate Origins(w: World) {
    forall mac :: mac in w.issued ==> HasOrigin(w, mac)
  }

  ghost predicate HasOrigin(w: World, mac: (string, string)) {
    (exists r :: FromRequest(w, mac, r)) || (exists a :: FromAnswer(w, mac, a))
  }

  /** Origins survive: events are only added. */
  lemma OriginsKept(w: World, w': World)
    requires Origins(w) && w.requests <= w'.requests && w.answered <= w'.answered
    requires forall mac :: mac in w'.issued && mac !in w.issued ==> HasOrigin(w', mac)
    ensures Origins(w')
  {
    forall mac | mac in w'.issued && mac in w.issued
      ensures HasOrigin(w', mac)
    {
      assert HasOrigin(w, mac);
      if r :| FromRequest(w, mac, r) {
        assert FromRequest(w', mac, r);
      } else {
        var a :| FromAnswer(w, mac, a);
        assert FromAnswer(w', mac, a);
      }
    }
  }

  lemma SendInv(c: Codec, peers: seq<Peer>, w: World, r: Sealed, w': World)
    requires ValidPeers(peers) && Inv(w) && Step(c, peers, w, SendRequest(r), w')
    ensures Inv(w')
  {
    hide Seal, Plain, Origins, MacOf, ValidPeers;
    SealKnows(c, peers, r.peerId, r.correlation, r.payload, REQUEST_DOMAIN);
    SendOrigins(peers, w, r, w');
    forall a | a in w'.accepted
      ensures a.request in w'.requests && a.request !in w'.waiting && Genuine(w', a)
    {
      assert a.request in w.requests && a.request != r;
    }
  }

  lemma SendOrigins(peers: seq<Peer>, w: World, r: Sealed, w': World)
    requires Origins(w) && w'.requests == w.requests + [r] && w'.answered == w.answered
    requires w'.issued == w.issued + {MacOf(peers, r.peerId, r.correlation, r.payload, REQUEST_DOMAIN)}
    ensures Origins(w')
  {
    hide MacInput;
    assert FromRequest(w', MacOf(peers, r.peerId, r.correlation, r.payload, REQUEST_DOMAIN), r);
    OriginsKept(w, w');
  }

  lemma SealKnows(c: Codec, peers: seq<Peer>, id: string, correlation: string, payload: string, domain: string)
    requires ValidPeers(peers) && Seal(c, peers, id, correlation, payload, domain).Ok?
    ensures Plain(id) && FindPeer(peers, id).Some?
  {
    hide Json, MacInput;
  }

  lemma AnswerInv(c: Codec, peers: seq<Peer>, w: World, m: Message, payload: string, w': World)
    requires Inv(w) && Step(c, peers, w, ServerAnswers(m, payload), w')
    ensures Inv(w')
  {
    hide Seal, MacInput, Plain;
    var mac := MacOf(peers, m.peerId, m.correlation, payload, RESPONSE_DOMAIN);
    assert FromAnswer(w', mac, Answered(m, payload));
    OriginsKept(w, w');
  }

  lemma ReadsInv(c: Codec, peers: seq<Peer>, w: World, e: Event, w': World)
    requires Inv(w) && Step(c, peers, w, e, w') && (e.ServerReads? || e.ClientReads?)
    ensures Inv(w')
  {
    hide Open, MacInput, Plain, Ideal;
    OriginsKept(w, w');
    if e.ServerReads? {
      if Open(c, peers, e.frame, REQUEST_DOMAIN).Ok? {
        OpenedRequestWasAsked(c, peers, w, e.frame);
      }
    } else if OpenResponse(c, peers, e.request, e.frame).Ok? {
      AcceptedIsGenuine(c, peers, w, e.request, e.frame);
    }
  }

  lemma StepInv(c: Codec, peers: seq<Peer>, w: World, e: Event, w': World)
    requires ValidPeers(peers) && Inv(w) && Step(c, peers, w, e, w')
    ensures Inv(w')
  {
    hide Inv, Open, Seal, Ideal;
    match e
    case SendRequest(r) => SendInv(c, peers, w, r, w');
    case ServerReads(_) => ReadsInv(c, peers, w, e, w');
    case ServerAnswers(m, payload) => AnswerInv(c, peers, w, m, payload, w');
    case ClientReads(_, _) => ReadsInv(c, peers, w, e, w');
  }

  const EMPTY := World({}, [], {}, [], [], [])

  predicate StepAt(c: Codec, peers: seq<Peer>, ws: seq<World>, es: seq<Event>, i: nat)
    requires |ws| == |es| + 1 && i < |es|
  {
    Step(c, peers, ws[i], es[i], ws[i + 1])
  }

  predicate Run(c: Codec, peers: seq<Peer>, ws: seq<World>, es: seq<Event>) {
    && |ws| == |es| + 1 && ws[0] == EMPTY
    && forall i {:trigger StepAt(c, peers, ws, es, i)} :: 0 <= i < |es| ==> StepAt(c, peers, ws, es, i)
  }

  lemma {:induction false} RunInv(c: Codec, peers: seq<Peer>, ws: seq<World>, es: seq<Event>, i: nat)
    requires ValidPeers(peers) && Run(c, peers, ws, es) && i < |ws|
    ensures Inv(ws[i])
  {
    hide Step;
    if i > 0 {
      RunInv(c, peers, ws, es, i - 1);
      assert StepAt(c, peers, ws, es, i - 1);
      StepInv(c, peers, ws[i - 1], es[i - 1], ws[i]);
    }
  }

  /** In every run, whatever the network does, an accepted response was sealed by the server for a
      frame with the client's own peer, correlation and payload, and no request gets two. */
  lemma ResponsesCorrelate(c: Codec, peers: seq<Peer>, ws: seq<World>, es: seq<Event>, i: nat)
    requires ValidPeers(peers) && Run(c, peers, ws, es) && i < |ws|
    ensures forall a :: a in ws[i].accepted ==> Genuine(ws[i], a) && a.request in ws[i].requests
    ensures forall x, y :: 0 <= x < y < |ws[i].accepted| ==> ws[i].accepted[x].request != ws[i].accepted[y].request
  {
    RunInv(c, peers, ws, es, i);
  }
}
