/** Newline framing over a byte stream that moves bytes in pieces of any size
    (crates/keylix-verifier/src/main.rs, lines 352 to 418, without deadlines). */
module Framing {
  import opened Text
  import PeerIpc

  const MAX_FRAME_BYTES := PeerIpc.MAX_PAYLOAD_BYTES * 2
  const CHUNK_BYTES := 4096

  /** How many bytes each call moves, at most; zero makes the call fail. */
  type Schedule = nat -> nat

  ghost predicate Positive(s: Schedule) {
    forall i :: s(i) > 0
  }

  function Least(a: nat, b: nat): nat { if a < b then a else b }

  /** A socket: bytes still to be read, bytes written so far. */
  class Stream {
    const schedule: Schedule
    var tick: nat
    var incoming: string
    var outgoing: string

    constructor (schedule: Schedule, incoming: string)
      ensures this.schedule == schedule && this.incoming == incoming && outgoing == ""
    {
      this.schedule, this.tick, this.incoming, this.outgoing := schedule, 0, incoming, "";
    }

    /** At most `max` bytes from the front; no bytes at the end of the stream, None on failure. */
    method Read(max: nat) returns (chunk: Option<string>)
      requires max > 0
      modifies this`tick, this`incoming
      ensures chunk.Some? ==> |chunk.value| <= max && old(incoming) == chunk.value + incoming
      ensures chunk.Some? ==> (chunk.value == "" <==> old(incoming) == "")
      ensures chunk.None? ==> incoming == old(incoming) && !Positive(schedule)
    {
      var n := schedule(tick);
      tick := tick + 1;
      if n == 0 {
        return None;
      }
      n := Least(n, Least(max, |incoming|));
      chunk := Some(incoming[..n]);
      incoming := incoming[n..];
    }

    /** Some bytes from the front of `bytes`; zero means failure. */
    method Write(bytes: string) returns (n: nat)
      requires bytes != ""
      modifies this`tick, this`outgoing
      ensures n <= |bytes| && outgoing == old(outgoing) + bytes[..n]
      ensures n == 0 ==> !Positive(schedule)
    {
      n := Least(schedule(tick), |bytes|);
      tick := tick + 1;
      outgoing := outgoing + bytes[..n];
    }
  }

  /** What the reader makes of the bytes before the newline. */
  function Unframe(line: string): Option<string> {
    var frame := if line != "" && line[|line| - 1] == '\r' then line[..|line| - 1] else line;
    if frame == "" then None else Some(frame)
  }

  /** One carriage return before the newline is dropped, and an empty frame is none. */
  lemma UnframeExactly(line: string, frame: string)
    ensures Unframe(line) == Some(frame) <==>
              frame != "" && (line == frame + "\r" || (line == frame && frame[|frame| - 1] != '\r'))
  {
    if Unframe(line) == Some(frame) && line != frame {
      assert line == line[..|line| - 1] + [line[|line| - 1]];
    }
    if line == frame + "\r" {
      assert line[..|line| - 1] == frame;
    }
  }

  /** Where the stream's first line ends. */
  function LineEnd(s: string): (k: nat)
    ensures k <= |s|
  {
    FindFirst(s, {'\n'})
  }

  /** An answer for a stream: only ever its first line, ending within the limit. */
  predicate FirstLine(data: string, r: Option<string>) {
    r.Some? ==> LineEnd(data) < |data| && LineEnd(data) < 65536 && r == Unframe(data[..LineEnd(data)])
  }

  /** A stream that is one line and nothing else, within the limit. */
  predicate SingleLine(data: string) {
    LineEnd(data) + 1 == |data| && LineEnd(data) < 65536
  }

  /** `read_frame`: what comes back is the first line of the stream, it ends within the limit and nothing
      after it was taken;
      without failures the one line of a stream always comes back. */
  method ReadFrame(s: Stream) returns (r: Option<string>)
    modifies s`tick, s`incoming
    ensures FirstLine(old(s.incoming), r)
    ensures r.Some? ==> s.incoming == old(s.incoming)[LineEnd(old(s.incoming)) + 1..]
    ensures Positive(s.schedule) && SingleLine(old(s.incoming)) ==>
              r == Unframe(old(s.incoming)[..LineEnd(old(s.incoming))])
  {
    hide Unframe;
    ghost var data := s.incoming;
    var frame := "";
    while true
      invariant data == frame + s.incoming && |frame| <= MAX_FRAME_BYTES && Excludes(frame, {'\n'})
      decreases MAX_FRAME_BYTES - |frame|
    {
      var budget := MAX_FRAME_BYTES - |frame|;
      if budget == 0 {
        LineAfter(frame, s.incoming);
        return None;
      }
      ghost var rest := s.incoming;
      var chunk := s.Read(Least(CHUNK_BYTES, budget));
      if chunk.None? {
        return None;
      }
      if chunk.value == "" {
        LineAfter(frame, rest);
        return None;
      }
      var newline := FindFirst(chunk.value, {'\n'});
      if newline < |chunk.value| {
        LineInChunk(frame, chunk.value, s.incoming, newline);
        if newline + 1 != |chunk.value| {
          return None;
        }
        frame := frame + chunk.value[..newline];
        return Unframe(frame);
      }
      ExcludesConcat(frame, chunk.value);
      ConcatAssociative(frame, chunk.value, s.incoming);
      frame := frame + chunk.value;
    }
  }

  lemma LineAfter(frame: string, rest: string)
    requires Excludes(frame, {'\n'})
    ensures LineEnd(frame + rest) == |frame| + LineEnd(rest)
  {
    FindFirstIs(frame + rest, {'\n'}, |frame| + LineEnd(rest));
  }

  lemma LineInChunk(frame: string, chunk: string, rest: string, n: nat)
    requires Excludes(frame, {'\n'}) && n < |chunk| && n == FindFirst(chunk, {'\n'})
    ensures LineEnd(frame + (chunk + rest)) == |frame| + n
    ensures (frame + (chunk + rest))[..|frame| + n] == frame + chunk[..n]
  {
    hide Excludes, FindFirst;
    LineAfter(frame, chunk + rest);
    FindFirstIs(chunk + rest, {'\n'}, n);
  }

  lemma ExcludesConcat(a: string, b: string)
    requires Excludes(a, {'\n'}) && Excludes(b, {'\n'})
    ensures Excludes(a + b, {'\n'})
  {
  }

  method WriteAll(s: Stream, bytes: string) returns (ok: bool)
    modifies s`tick, s`outgoing
    ensures ok ==> s.outgoing == old(s.outgoing) + bytes
    ensures !ok ==> !Positive(s.schedule) && exists n: nat :: n < |bytes| && s.outgoing == old(s.outgoing) + bytes[..n]
  {
    var rest := bytes;
    ghost var done: nat := 0;
    while rest != ""
      invariant done <= |bytes| && rest == bytes[done..] && s.outgoing == old(s.outgoing) + bytes[..done]
      decreases |rest|
    {
      var n := s.Write(rest);
      if n == 0 {
        assert s.outgoing == old(s.outgoing) + bytes[..done];
        return false;
      }
      assert bytes[..done] + rest[..n] == bytes[..done + n];
      rest := rest[n..];
      done := done + n;
    }
    assert bytes[..done] == bytes;
    return true;
  }

  /** `write_frame`: the frame and a newline, or a refusal before anything is written. */
  method WriteFrame(s: Stream, frame: string) returns (ok: bool)
    modifies s`tick, s`outgoing
    ensures ok ==> s.outgoing == old(s.outgoing) + frame + "\n"
    ensures frame == "" || |frame| > 65536 ==> !ok && s.outgoing == old(s.outgoing)
    ensures Positive(s.schedule) ==> ok == (1 <= |frame| <= 65536)
  {
    if frame == "" || |frame| > MAX_FRAME_BYTES {
      return false;
    }
    ok := WriteAll(s, frame);
    if ok {
      ok := WriteAll(s, "\n");
    }
  }

  /** Frames that framing can carry. */
  predicate Carried(frame: string) {
    1 <= |frame| <= 65535 && Excludes(frame, {'\n'}) && frame[|frame| - 1] != '\r'
  }

  /** Writing a frame in pieces of any sizes and reading it in pieces of any other sizes gives the frame
      back exactly when it can be carried. A frame of the full limit is written but not read. */
  method Exchange(frame: string, sending: Schedule, receiving: Schedule) returns (r: Option<string>)
    ensures r == Some(frame) ==> Carried(frame)
    ensures Positive(sending) && Positive(receiving) ==> (r == Some(frame) <==> Carried(frame))
  {
    var sender := new Stream(sending, "");
    var ok := WriteFrame(sender, frame);
    if !ok {
      return None;
    }
    assert sender.outgoing == frame + "\n";
    OneLine(frame);
    var receiver := new Stream(receiving, sender.outgoing);
    r := ReadFrame(receiver);
  }

  /** A frame that ends in a carriage return and a newline reads back without them. */
  method ReadCarriage(frame: string, receiving: Schedule) returns (r: Option<string>)
    ensures Positive(receiving) && 1 <= |frame| <= 65534 && Excludes(frame, {'\n'}) ==> r == Some(frame)
  {
    var stream := new Stream(receiving, frame + "\r" + "\n");
    OneLine(frame + "\r");
    UnframeExactly(frame + "\r", frame);
    if Excludes(frame, {'\n'}) {
      ExcludesConcat(frame, "\r");
    }
    r := ReadFrame(stream);
  }

  lemma OneLine(frame: string)
    ensures var s := frame + "\n";
            var k := LineEnd(s);
            k <= |frame| && (k == |frame| <==> Excludes(frame, {'\n'})) && (k == |frame| ==> s[..k] == frame)
            && (Unframe(s[..k]) == Some(frame) <==>
               Excludes(frame, {'\n'}) && frame != "" && frame[|frame| - 1] != '\r')
  {
    var s := frame + "\n";
    var k := LineEnd(s);
    assert s[|frame|] == '\n';
    if Excludes(frame, {'\n'}) {
      FindFirstIs(s, {'\n'}, |frame|);
    } else {
      var i :| 0 <= i < |frame| && frame[i] == '\n';
      assert s[i] == '\n';
    }
  }

  /** Every frame the verifier seals can be carried. */
  lemma SealedFramesCarried(c: PeerIpc.Codec, peers: seq<PeerIpc.Peer>, id: string, correlation: string,
                            payload: string, domain: string)
    requires PeerIpc.Base64(c) && PeerIpc.MacSized(c) && PeerIpc.ValidPeers(peers)
    requires |correlation| == PeerIpc.CORRELATION_BYTES && IsBytes(correlation) && IsBytes(payload)
    requires PeerIpc.Seal(c, peers, id, correlation, payload, domain).Ok?
    ensures Carried(PeerIpc.Seal(c, peers, id, correlation, payload, domain).value)
  {
    PeerIpc.SealedFits(c, peers, id, correlation, payload, domain);
    var peer := PeerIpc.FindPeer(peers, id).value;
    var mac := c.hmac(peer.key, PeerIpc.MacInput(domain, id, correlation, payload));
    assert PeerIpc.Plain(c.encode(correlation)) && PeerIpc.Plain(c.encode(payload)) && PeerIpc.Plain(c.encode(mac));
    JsonOneLine(PeerIpc.Envelope(PeerIpc.VERIFIER_PROTOCOL_VERSION, id, c.encode(correlation), c.encode(payload),
        c.encode(mac)));
  }

  predicate Printable(s: string) {
    forall i :: 0 <= i < |s| ==> ' ' <= s[i]
  }

  lemma PrintableConcat(a: string, b: string)
    requires Printable(a) && Printable(b)
    ensures Printable(a + b)
  {
  }

  lemma PrintableOneLine(s: string)
    requires Printable(s)
    ensures Excludes(s, {'\n'})
  {
  }

  /** A named member after what is already printed. */
  lemma MemberPrintable(before: string, name: string, value: string)
    requires Printable(before) && Printable(name) && PeerIpc.Plain(value)
    ensures Printable(before + name + PeerIpc.Quote(value))
  {
  }

  lemma NamesPrintable()
    ensures Printable("{\"version\":") && Printable(",\"peer_id\":") && Printable(",\"correlation_base64url\":")
    ensures Printable(",\"payload_base64url\":") && Printable(",\"mac_base64url\":") && Printable("}")
  {
  }

  lemma JsonOneLine(e: PeerIpc.Envelope)
    requires PeerIpc.Plain(e.peerId) && PeerIpc.Plain(e.correlation) && PeerIpc.Plain(e.payload) && PeerIpc.Plain(e.mac)
    ensures Excludes(PeerIpc.Json(e), {'\n'}) && PeerIpc.Json(e) != "" && PeerIpc.Json(e)[|PeerIpc.Json(e)| - 1] == '}'
  {
    hide Printable, PeerIpc.Plain, PeerIpc.Quote, Excludes;
    NamesPrintable();
    DecimalPrintable(e.version);
    var v := "{\"version\":" + Decimal(e.version);
    PrintableConcat("{\"version\":", Decimal(e.version));
    MemberPrintable(v, ",\"peer_id\":", e.peerId);
    var a := v + ",\"peer_id\":" + PeerIpc.Quote(e.peerId);
    MemberPrintable(a, ",\"correlation_base64url\":", e.correlation);
    var b := a + ",\"correlation_base64url\":" + PeerIpc.Quote(e.correlation);
    MemberPrintable(b, ",\"payload_base64url\":", e.payload);
    var c := b + ",\"payload_base64url\":" + PeerIpc.Quote(e.payload);
    MemberPrintable(c, ",\"mac_base64url\":", e.mac);
    var d := c + ",\"mac_base64url\":" + PeerIpc.Quote(e.mac);
    PrintableConcat(d, "}");
    assert PeerIpc.Json(e) == d + "}";
    PrintableOneLine(d + "}");
  }

  lemma DecimalPrintable(n: nat)
    ensures Printable(Decimal(n))
  {
  }
}
