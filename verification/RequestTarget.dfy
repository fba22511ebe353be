/** Normalisation of an absolute HTTP(S) request target
    (crates/keylix-dpop/src/request.rs, lines 150 to 254 and 349 to 353). */
module RequestTarget {
  import opened Text
  import opened PercentEncoding
  import opened DotSegments

  const MAX_TARGET_BYTES := 2048

  /** The standard library's IPv6 literal parser followed by its printer. */
  type V6 = string -> Option<string>

  /** What is assumed of the IPv6 printer: canonical forms are fixed points, spelled with
      hexadecimal digits, colons and dots. */
  ghost predicate V6Canonical(v6: V6) {
    forall s :: v6(s).Some? ==> V6Text(v6(s).value) && v6(v6(s).value) == v6(s)
  }

  predicate V6Text(t: string) {
    forall i :: 0 <= i < |t| ==> IsDigit(t[i]) || 'a' <= t[i] <= 'f' || t[i] == ':' || t[i] == '.'
  }

  predicate Visible(s: string) {
    forall i :: 0 <= i < |s| ==> 0x20 < s[i] as int < 0x7f
  }

  datatype Parts = Parts(scheme: string, host: string, port: Option<nat>, path: string)

  function ParsePort(raw: string): (r: Option<nat>) {
    if raw == "" || !AllDigits(raw) || DecimalValue(raw) > 65535 then None else Some(DecimalValue(raw))
  }

  function DropDefault(scheme: string, port: Option<nat>): Option<nat> {
    if (scheme == "http" && port == Some(80)) || (scheme == "https" && port == Some(443)) then None else port
  }

  /** A bracketed IPv6 literal with an optional port. */
  function V6Authority(text: string, scheme: string, v6: V6): Option<(string, Option<nat>)>
    requires text != ""
  {
    var close := FindFirst(text, {']'});
    if close == 0 || close == |text| || v6(text[1..close]).None? then None
    else
      var host := "[" + v6(text[1..close]).value + "]";
      var tail := text[close + 1..];
      if tail == "" then Some((host, None))
      else if tail[0] != ':' || ParsePort(tail[1..]).None? then None
      else Some((host, DropDefault(scheme, ParsePort(tail[1..]))))
  }

  /** A registered name with an optional port. */
  function RegAuthority(text: string, scheme: string): Option<(string, Option<nat>)>
    requires text != ""
  {
    var k := FindFirst(text, {':'});
    if !Excludes(text, {'[', ']'}) || (k < |text| && !Excludes(text[k + 1..], {':'})) then None
    else if k < |text| && ParsePort(text[k + 1..]).None? then None
    else if k == 0 || NormalizeRegName(text[..k]).None? then None
    else
      Some((NormalizeRegName(text[..k]).value,
            if k < |text| then DropDefault(scheme, ParsePort(text[k + 1..])) else None))
  }

  /** `normalize_authority`: host and explicit non-default port. */
  function Authority(text: string, scheme: string, v6: V6): Option<(string, Option<nat>)>
    requires text != ""
  {
    if text[0] == '[' then V6Authority(text, scheme, v6) else RegAuthority(text, scheme)
  }

  function Scheme(raw: string): Option<string> {
    if Lower(raw) == "https" then Some("https") else if Lower(raw) == "http" then Some("http") else None
  }

  /** The scheme in lower case and what follows its "://". */
  function SplitScheme(input: string): Option<(string, string)> {
    var colon := FindFirst(input, {':'});
    if colon == |input| || Scheme(input[..colon]).None? || !HasPrefix(input[colon + 1..], "//") then None
    else Some((Scheme(input[..colon]).value, input[colon + 3..]))
  }

  function RawPath(suffix: string): string {
    suffix[..FindFirst(suffix, {'?', '#'})]
  }

  function NormalizePath(raw: string): Option<string> {
    if raw == "" then Some("/")
    else if !HasPrefix(raw, "/") then None
    else
      match Normalize(raw)
      case None => None
      case Some(p) =>
        KeepsSlash(raw);
        Some(RemoveDots(p))
  }

  /** Where the authority ends. */
  function AuthorityEnd(after: string): (end: nat)
    ensures end <= |after|
  {
    FindFirst(after, {'/', '?', '#'})
  }

  function DissectRest(scheme: string, after: string, v6: V6): Option<Parts> {
    var end := AuthorityEnd(after);
    if end == 0 || !Excludes(after[..end], {'@'}) then None
    else
      var authority := Authority(after[..end], scheme, v6);
      var path := NormalizePath(RawPath(after[end..]));
      if authority.None? || path.None? then None
      else Some(Parts(scheme, authority.value.0, authority.value.1, path.value))
  }

  /** The components of an accepted target, each in normal form. */
  function Dissect(input: string, v6: V6): Option<Parts> {
    if input == "" || |input| > MAX_TARGET_BYTES || !Visible(input) then None
    else
      match SplitScheme(input)
      case None => None
      case Some((scheme, after)) => DissectRest(scheme, after, v6)
  }

  function PortText(port: Option<nat>): string {
    if port.Some? then ":" + Decimal(port.value) else ""
  }

  function AuthorityText(p: Parts): string {
    p.host + PortText(p.port)
  }

  function Print(p: Parts): string {
    p.scheme + "://" + (AuthorityText(p) + p.path)
  }

  /** `normalize_http_uri`. */
  function NormalizeTarget(input: string, v6: V6): Option<string> {
    match Dissect(input, v6)
    case None => None
    case Some(p) => Some(Print(p))
  }

  // ---- Normal forms ----

  /** Characters that may stand in an authority. */
  predicate AuthorityChar(c: char) {
    0x20 < c as int < 0x7f && c != '/' && c != '?' && c != '#' && c != '@'
  }

  /** Characters that may stand in a registered name. */
  predicate NameChar(c: char) {
    AuthorityChar(c) && c != ':' && c != '[' && c != ']'
  }

  predicate AuthorityChars(s: string) {
    forall i :: 0 <= i < |s| ==> AuthorityChar(s[i])
  }

  predicate NameChars(s: string) {
    forall i :: 0 <= i < |s| ==> NameChar(s[i])
  }

  predicate RegHost(host: string) {
    host != "" && NameChars(host) && NormalizeRegName(host) == Some(host)
  }

  predicate V6Host(host: string, v6: V6) {
    && |host| >= 2 && host[0] == '[' && host[|host| - 1] == ']'
    && V6Text(host[1..|host| - 1])
    && v6(host[1..|host| - 1]) == Some(host[1..|host| - 1])
  }

  predicate NormalPort(scheme: string, port: Option<nat>) {
    DropDefault(scheme, port) == port && (port.Some? ==> port.value <= 65535)
  }

  predicate NormalPath(path: string) {
    && HasPrefix(path, "/") && Visible(path) && Excludes(path, {'?', '#'})
    && Canonical(path) && RemoveDots(path) == path
  }

  predicate NormalParts(p: Parts, v6: V6) {
    && (p.scheme == "http" || p.scheme == "https")
    && (RegHost(p.host) || V6Host(p.host, v6))
    && NormalPort(p.scheme, p.port)
    && NormalPath(p.path)
  }

  lemma UnreservedVisible(c: char)
    requires IsUnreserved(c as int)
    ensures NameChar(c)
  {
  }

  lemma RegHostNormal(raw: string)
    requires raw != "" && NameChars(raw)
    requires NormalizeRegName(raw).Some?
    ensures RegHost(NormalizeRegName(raw).value) && |NormalizeRegName(raw).value| <= |raw|
  {
    var host := NormalizeRegName(raw).value;
    RegNameBounds(raw);
    RegNameIdempotent(raw);
    forall i | 0 <= i < |host|
      ensures NameChar(host[i])
    {
      if IsUnreserved(host[i] as int) {
        UnreservedVisible(host[i]);
      }
    }
  }

  lemma PathText(raw: string, path: string)
    requires Visible(raw) && Excludes(raw, {'?', '#'})
    requires forall c :: c in path ==> c in raw || IsUnreserved(c as int)
    ensures Visible(path) && Excludes(path, {'?', '#'})
  {
    forall i | 0 <= i < |path|
      ensures 0x20 < path[i] as int < 0x7f && path[i] != '?' && path[i] != '#'
    {
      assert path[i] in path;
      if IsUnreserved(path[i] as int) {
        UnreservedVisible(path[i]);
      }
    }
  }

  lemma SlashNormal()
    ensures NormalPath("/")
  {
    PlainFixed("/");
    assert "/"[1..] == "";
    RemoveDotsFixed("/");
  }

  lemma PathNormal(raw: string)
    requires Visible(raw) && Excludes(raw, {'?', '#'}) && NormalizePath(raw).Some?
    ensures NormalPath(NormalizePath(raw).value)
    ensures |NormalizePath(raw).value| <= if raw == "" then 1 else |raw|
  {
    if raw == "" {
      SlashNormal();
    } else {
      var p := Normalize(raw).value;
      NormalizeBounds(raw);
      NormalizeIdempotent(raw);
      RemoveDotsShape(p);
      RemoveDotsIdempotent(p);
      RemoveDotsCanonical(p);
      PathText(raw, RemoveDots(p));
    }
  }

  lemma V6AuthorityNormal(text: string, scheme: string, v6: V6)
    requires V6Canonical(v6) && text != "" && V6Authority(text, scheme, v6).Some?
    ensures var (host, port) := V6Authority(text, scheme, v6).value;
            V6Host(host, v6) && NormalPort(scheme, port)
  {
  }

  lemma RegAuthorityNormal(text: string, scheme: string)
    requires text != "" && AuthorityChars(text)
    requires RegAuthority(text, scheme).Some?
    ensures var (host, port) := RegAuthority(text, scheme).value;
            && RegHost(host) && NormalPort(scheme, port)
            && |host + PortText(port)| <= |text|
  {
    hide NormalizeRegName, RegHost, Decimal, DecimalValue;
    var k := FindFirst(text, {':'});
    HostPart(text, k);
    RegHostNormal(text[..k]);
    if k < |text| {
      DecimalNotLonger(text[k + 1..]);
    }
  }

  lemma HostPart(text: string, k: nat)
    requires k <= |text| && AuthorityChars(text) && Excludes(text, {'[', ']'}) && Excludes(text[..k], {':'})
    ensures NameChars(text[..k])
  {
  }

  lemma DissectRestNormal(scheme: string, after: string, v6: V6)
    requires V6Canonical(v6) && (scheme == "http" || scheme == "https")
    requires Visible(after) && DissectRest(scheme, after, v6).Some?
    ensures var p := DissectRest(scheme, after, v6).value;
            && NormalParts(p, v6) && p.scheme == scheme
            && (RegHost(p.host) <==> after[0] != '[')
            && var text, rest := after[..AuthorityEnd(after)], after[AuthorityEnd(after)..];
               && (RegHost(p.host) ==> |AuthorityText(p)| <= |text|)
               && |p.path| <= (if rest == "" then 1 else |rest|) && (rest == "" ==> p.path == "/")
  {
    hide NormalPath, V6Canonical, NormalPort, V6Authority, RegAuthority, Normalize, RemoveDots;
    var end := AuthorityEnd(after);
    var text, suffix := after[..end], after[end..];
    PathNormal(RawPath(suffix));
    if text[0] == '[' {
      V6AuthorityNormal(text, scheme, v6);
    } else {
      RegAuthorityNormal(text, scheme);
    }
  }

  /** Whatever is accepted comes apart into normal components. */
  lemma DissectNormal(input: string, v6: V6)
    requires V6Canonical(v6) && Dissect(input, v6).Some?
    ensures NormalParts(Dissect(input, v6).value, v6)
    ensures RegHost(Dissect(input, v6).value.host) ==> |Print(Dissect(input, v6).value)| <= |input| + 1
  {
    hide NormalParts, DissectRest, RegHost;
    var (scheme, after) := SplitScheme(input).value;
    assert |scheme| == FindFirst(input, {':'});
    NonEmptyRest(scheme, after, v6);
    DissectRestNormal(scheme, after, v6);
  }

  /** What follows "://", when an accepted target has it. */
  function AfterScheme(input: string): string {
    match SplitScheme(input)
    case None => ""
    case Some((_, after)) => after
  }

  // ---- Reading a normal form back ----

  lemma PortRoundTrip(p: nat)
    requires p <= 65535
    ensures ParsePort(Decimal(p)) == Some(p)
    ensures NameChars(Decimal(p))
  {
    DecimalRoundTrip(p);
  }

  /** Where a string is cut by a search whose needles are absent before the cut. */
  lemma CutAt(head: string, tail: string, needles: set<char>)
    requires Excludes(head, needles) && (tail != "" ==> tail[0] in needles)
    ensures var s := head + tail;
            FindFirst(s, needles) == |head| && s[..|head|] == head && s[|head|..] == tail
            && (tail != "" ==> s[|head| + 1..] == tail[1..])
  {
  }

  lemma PortTextShape(port: Option<nat>)
    requires port.Some? ==> port.value <= 65535
    ensures var t := PortText(port);
            if port.None? then t == ""
            else t != "" && t[0] == ':' && NameChars(t[1..]) && ParsePort(t[1..]) == port
  {
    if port.Some? {
      PortRoundTrip(port.value);
      assert PortText(port)[1..] == Decimal(port.value);
    }
  }

  lemma RegRoundTrip(host: string, port: Option<nat>, scheme: string)
    requires RegHost(host) && NormalPort(scheme, port)
    ensures RegAuthority(host + PortText(port), scheme) == Some((host, port))
  {
    var tail := PortText(port);
    PortTextShape(port);
    CutAt(host, tail, {':'});
    RegTextExcludes(host, tail);
  }

  lemma RegTextExcludes(host: string, tail: string)
    requires NameChars(host) && (tail != "" ==> tail[0] == ':' && NameChars(tail[1..]))
    ensures Excludes(host + tail, {'[', ']'})
    ensures tail != "" ==> Excludes(tail[1..], {':'})
  {
  }

  lemma V6RoundTrip(host: string, port: Option<nat>, scheme: string, v6: V6)
    requires V6Host(host, v6) && NormalPort(scheme, port)
    ensures V6Authority(host + PortText(port), scheme, v6) == Some((host, port))
  {
    PortTextShape(port);
    V6Cut(host, PortText(port));
    assert host == "[" + host[1..|host| - 1] + "]";
  }

  lemma V6Cut(host: string, tail: string)
    requires |host| >= 2 && host[0] == '[' && host[|host| - 1] == ']' && V6Text(host[1..|host| - 1])
    ensures var s, n := host + tail, |host| - 1;
            FindFirst(s, {']'}) == n && s[1..n] == host[1..n] && s[n + 1..] == tail
  {
    var s, n := host + tail, |host| - 1;
    assert forall i :: 1 <= i < n ==> s[i] == host[1..n][i - 1];
    FindFirstIs(s, {']'}, n);
  }

  lemma HostChars(host: string, v6: V6)
    requires RegHost(host) || V6Host(host, v6)
    ensures AuthorityChars(host)
  {
    if V6Host(host, v6) {
      var n := |host| - 1;
      assert forall i :: 1 <= i < n ==> host[i] == host[1..n][i - 1];
    }
  }

  lemma AuthorityTextOk(p: Parts, v6: V6)
    requires NormalParts(p, v6)
    ensures AuthorityText(p) != "" && AuthorityChars(AuthorityText(p))
  {
    if p.port.Some? {
      PortRoundTrip(p.port.value);
    }
    HostChars(p.host, v6);
  }

  lemma PathRoundTrip(path: string)
    requires NormalPath(path)
    ensures RawPath(path) == path && NormalizePath(path) == Some(path)
  {
  }

  lemma SchemeRoundTrip(scheme: string, after: string)
    requires scheme == "http" || scheme == "https"
    ensures SplitScheme(scheme + "://" + after) == Some((scheme, after))
    ensures Visible(scheme + "://")
  {
    var input, n := scheme + "://" + after, |scheme|;
    assert Lower(scheme) == scheme;
    assert input[n] == ':' && input[..n] == scheme;
    FindFirstIs(input, {':'}, n);
    assert input[n + 1..] == "//" + after;
    assert input[n + 3..] == after;
  }

  lemma AuthorityRoundTrip(p: Parts, v6: V6)
    requires NormalParts(p, v6)
    ensures AuthorityText(p) != "" && Authority(AuthorityText(p), p.scheme, v6) == Some((p.host, p.port))
  {
    assert AuthorityText(p)[0] == p.host[0];
    if V6Host(p.host, v6) {
      V6RoundTrip(p.host, p.port, p.scheme, v6);
    } else {
      assert NameChar(p.host[0]);
      RegRoundTrip(p.host, p.port, p.scheme);
    }
  }

  lemma RestRoundTrip(p: Parts, v6: V6)
    requires NormalParts(p, v6)
    ensures DissectRest(p.scheme, AuthorityText(p) + p.path, v6) == Some(p)
  {
    hide DissectRest, AuthorityText, Authority, RawPath, NormalizePath, AuthorityChars, RegHost, V6Host, NormalPort;
    AuthorityTextOk(p, v6);
    PathRoundTrip(p.path);
    AuthorityRoundTrip(p, v6);
    assert p.path[..1] == "/";
    RestRead(p, AuthorityText(p), v6);
  }

  lemma RestRead(p: Parts, text: string, v6: V6)
    requires text != "" && AuthorityChars(text) && p.path != "" && p.path[0] == '/'
    requires Authority(text, p.scheme, v6) == Some((p.host, p.port))
    requires RawPath(p.path) == p.path && NormalizePath(p.path) == Some(p.path)
    ensures DissectRest(p.scheme, text + p.path, v6) == Some(p)
  {
    assert Excludes(text, {'/', '?', '#'}) && Excludes(text, {'@'});
    CutAt(text, p.path, {'/', '?', '#'});
  }

  /** A printed normal form within the size limit comes apart into the same components. */
  lemma PrintRoundTrip(p: Parts, v6: V6)
    requires NormalParts(p, v6) && |Print(p)| <= MAX_TARGET_BYTES
    ensures Dissect(Print(p), v6) == Some(p)
  {
    SchemeRoundTrip(p.scheme, AuthorityText(p) + p.path);
    RestRoundTrip(p, v6);
    PrintVisible(p, v6);
  }

  lemma PrintVisible(p: Parts, v6: V6)
    requires NormalParts(p, v6)
    ensures Visible(Print(p)) && Print(p) != ""
  {
    AuthorityTextOk(p, v6);
    SchemeRoundTrip(p.scheme, "");
    assert Visible(AuthorityText(p));
    VisibleConcat(AuthorityText(p), p.path);
    VisibleConcat(p.scheme + "://", AuthorityText(p) + p.path);
  }

  lemma VisibleConcat(a: string, b: string)
    requires Visible(a) && Visible(b)
    ensures Visible(a + b)
  {
  }

  /** Normalisation is idempotent up to the size limit: the normal form of an accepted target
      normalises to itself exactly when it still fits the limit, and for registered names it is at
      most one byte longer than what was given. */
  lemma NormalizeTargetIdempotent(input: string, v6: V6)
    requires V6Canonical(v6) && NormalizeTarget(input, v6).Some?
    ensures var out := NormalizeTarget(input, v6).value;
            && (NormalizeTarget(out, v6) == Some(out) <==> |out| <= MAX_TARGET_BYTES)
            && (RegHost(Dissect(input, v6).value.host) ==> |out| <= |input| + 1)
  {
    DissectNormal(input, v6);
    var p := Dissect(input, v6).value;
    if |Print(p)| <= MAX_TARGET_BYTES {
      PrintRoundTrip(p, v6);
    }
  }

  /** A port that disappears or loses digits: the default of the scheme, or one with leading zeros. */
  predicate ShrinkingPort(scheme: string, raw: string) {
    ParsePort(raw).Some? && (DropDefault(scheme, ParsePort(raw)).None? || (|raw| > 1 && raw[0] == '0'))
  }

  /** The text of a registered name with a needless escape in its host, or a port that shrinks. */
  predicate Shrinks(text: string, scheme: string) {
    var k := FindFirst(text, {':'});
    || (Tokens(text[..k]).Some? && NeedlessEscape(Tokens(text[..k]).value))
    || (k < |text| && ShrinkingPort(scheme, text[k + 1..]))
  }

  lemma PortShrinks(scheme: string, raw: string)
    requires ParsePort(raw).Some?
    ensures var t := PortText(DropDefault(scheme, ParsePort(raw)));
            |t| <= 1 + |raw| && (|t| < 1 + |raw| <==> ShrinkingPort(scheme, raw))
  {
    DecimalNotLonger(raw);
    DecimalWithoutZeros(raw);
    if |raw| > 1 && raw[0] == '0' {
      LeadingZero(raw);
    }
  }

  /** Normalisation shortens an authority exactly when its text says so. */
  lemma AuthorityShrinks(text: string, scheme: string)
    requires text != "" && RegAuthority(text, scheme).Some?
    ensures var (host, port) := RegAuthority(text, scheme).value;
            |host + PortText(port)| < |text| <==> Shrinks(text, scheme)
  {
    hide ShrinkingPort, NormalizeRegName, NeedlessEscape, DropDefault;
    var k := FindFirst(text, {':'});
    RegNameShortens(text[..k]);
    RegNameBounds(text[..k]);
    HostReads(text[..k]);
    if k < |text| {
      PortShrinks(scheme, text[k + 1..]);
    }
  }

  lemma HostReads(host: string)
    requires NormalizeRegName(host).Some?
    ensures Tokens(host).Some?
  {
  }

  /** The same from the text that was given: a registered name normalises idempotently exactly when the target has
      fewer than 2048 bytes, or a path, query or fragment follows the authority, or the authority spells out a
      needless escape, the default port or leading zeros of a port. */
  lemma IdempotentWhen(input: string, v6: V6)
    requires V6Canonical(v6) && NormalizeTarget(input, v6).Some? && !HasPrefix(AfterScheme(input), "[")
    ensures var out, after := NormalizeTarget(input, v6).value, AfterScheme(input);
            NormalizeTarget(out, v6) == Some(out) <==>
              || |input| < MAX_TARGET_BYTES
              || AuthorityEnd(after) < |after|
              || Shrinks(after, SplitScheme(input).value.0)
  {
    hide NormalParts, DissectRest, RegHost, Shrinks, RegAuthority;
    NormalizeTargetIdempotent(input, v6);
    var (scheme, after) := SplitScheme(input).value;
    assert |scheme| == FindFirst(input, {':'});
    NonEmptyRest(scheme, after, v6);
    assert after[..1] == [after[0]];
    DissectRestNormal(scheme, after, v6);
    if AuthorityEnd(after) == |after| {
      WholeAuthority(scheme, after, v6);
      AuthorityShrinks(after, scheme);
    }
  }

  lemma WholeAuthority(scheme: string, after: string, v6: V6)
    requires DissectRest(scheme, after, v6).Some? && AuthorityEnd(after) == |after| && after[0] != '['
    ensures var p := DissectRest(scheme, after, v6).value; RegAuthority(after, scheme) == Some((p.host, p.port))
  {
    assert after[..|after|] == after;
  }

  lemma NonEmptyRest(scheme: string, after: string, v6: V6)
    requires DissectRest(scheme, after, v6).Some?
    ensures after != ""
  {
  }

  /** Printing tells normal components apart, whatever the size. */
  lemma PrintInjective(p: Parts, q: Parts, v6: V6)
    requires NormalParts(p, v6) && NormalParts(q, v6) && Print(p) == Print(q)
    ensures p == q
  {
    hide NormalParts, AuthorityText, SplitScheme, DissectRest;
    SchemeOf(p, v6);
    SchemeOf(q, v6);
    SchemeRoundTrip(p.scheme, AuthorityText(p) + p.path);
    SchemeRoundTrip(q.scheme, AuthorityText(q) + q.path);
    RestRoundTrip(p, v6);
    RestRoundTrip(q, v6);
  }

  lemma SchemeOf(p: Parts, v6: V6)
    requires NormalParts(p, v6)
    ensures p.scheme == "http" || p.scheme == "https"
  {
  }

  /** Equal normal forms mean equal components: the comparison of targets is exact. */
  lemma NormalFormsDistinguish(a: string, b: string, v6: V6)
    requires V6Canonical(v6)
    requires NormalizeTarget(a, v6).Some? && NormalizeTarget(b, v6).Some?
    ensures NormalizeTarget(a, v6) == NormalizeTarget(b, v6) <==> Dissect(a, v6) == Dissect(b, v6)
  {
    hide NormalParts, Print;
    DissectNormal(a, v6);
    DissectNormal(b, v6);
    if NormalizeTarget(a, v6) == NormalizeTarget(b, v6) {
      PrintInjective(Dissect(a, v6).value, Dissect(b, v6).value, v6);
    }
  }

  lemma {:induction false} PlainFixed(s: string)
    requires '%' !in s
    ensures Normalize(s) == Some(s)
  {
    if s == "" {
      EmptyCanonical();
    } else {
      PlainFixed(s[1..]);
      NormalizeStep(s);
      assert s == [s[0]] + s[1..];
    }
  }

  lemma LetterHostNormal(host: string)
    requires host != "" && forall i :: 0 <= i < |host| ==> host[i] == 'a'
    ensures RegHost(host)
  {
    PlainFixed(host);
    assert Lower(host) == host;
  }

  /** A registered name without port or path gets a slash appended. */
  lemma BareHost(host: string, v6: V6)
    requires RegHost(host) && |host| <= MAX_TARGET_BYTES - 7
    ensures NormalizeTarget("http" + "://" + host, v6) == Some("http" + "://" + (host + "/"))
  {
    SchemeRoundTrip("http", host);
    assert Visible(host);
    VisibleConcat("http" + "://", host);
    BareHostRest(host, v6);
  }

  lemma BareHostRest(host: string, v6: V6)
    requires RegHost(host)
    ensures DissectRest("http", host, v6) == Some(Parts("http", host, None, "/"))
    ensures host + PortText(None) == host
  {
    RegRoundTrip(host, None, "http");
    assert host + PortText(None) == host && host + "" == host;
    assert Excludes(host, {'/', '?', '#'}) && Excludes(host, {'@'});
    CutAt(host, "", {'/', '?', '#'});
    assert NameChar(host[0]);
    assert RawPath("") == "";
  }

  /** The limit is reached: a host of 2041 letters without a path is accepted, its normal form
      has 2049 bytes and is refused. */
  lemma LongTargetNotIdempotent(v6: V6)
    ensures var host := seq(2041, _ => 'a');
            && NormalizeTarget("http" + "://" + host, v6) == Some("http" + "://" + (host + "/"))
            && NormalizeTarget("http" + "://" + (host + "/"), v6) == None
  {
    var host := seq(2041, _ => 'a');
    LetterHostNormal(host);
    BareHost(host, v6);
  }

  // ---- From the text ----

  /** A target as it is written. */
  function Spelled(scheme: string, authority: string, path: string, tail: string): string {
    scheme + "://" + authority + path + tail
  }

  function WithPort(host: string, port: Option<string>): string {
    if port.Some? then host + ":" + port.value else host
  }

  /** A scheme in any case, a path that is empty or absolute, and a query or fragment. */
  predicate Framed(scheme: string, path: string, tail: string) {
    && (Lower(scheme) == "http" || Lower(scheme) == "https")
    && (path == "" || path[0] == '/') && Excludes(path, {'?', '#'})
    && (tail == "" || tail[0] == '?' || tail[0] == '#')
  }

  predicate Acceptable(input: string) {
    |input| <= 2048 && forall i :: 0 <= i < |input| ==> '!' <= input[i] <= '~'
  }

  predicate GoodPort(port: Option<string>) {
    port.Some? ==> port.value != "" && AllDigits(port.value) && DecimalValue(port.value) <= 65535
  }

  /** What is printed of a port: nothing for the default of the scheme. */
  function PortPrinted(scheme: string, port: Option<string>): string
    requires GoodPort(port)
  {
    if port.None? then ""
    else
      var n := DecimalValue(port.value);
      if (scheme == "http" && n == 80) || (scheme == "https" && n == 443) then "" else ":" + Decimal(n)
  }

  function PathPrinted(path: string): string
    requires (path == "" || path[0] == '/') && Normalize(path).Some?
  {
    if path == "" then "/"
    else
      KeepsSlash(path);
      RemoveDots(Normalize(path).value)
  }

  lemma SpelledScheme(scheme: string, authority: string, path: string, tail: string)
    requires Lower(scheme) == "http" || Lower(scheme) == "https"
    ensures SplitScheme(Spelled(scheme, authority, path, tail)) == Some((Lower(scheme), authority + path + tail))
  {
    var input, n := Spelled(scheme, authority, path, tail), |scheme|;
    var after := authority + path + tail;
    assert input == scheme + "://" + after;
    forall i | 0 <= i < n ensures input[i] != ':' {
      assert Lower(scheme)[i] == LowerChar(scheme[i]);
      assert Lower(scheme)[i] in "https";
    }
    assert input[n] == ':' && input[..n] == scheme;
    FindFirstIs(input, {':'}, n);
    assert input[n + 1..] == "//" + after;
    assert input[n + 3..] == after;
  }

  lemma SpelledRest(scheme: string, authority: string, path: string, tail: string, v6: V6)
    requires authority != "" && Excludes(authority, {'/', '?', '#', '@'})
    requires (path == "" || path[0] == '/') && Excludes(path, {'?', '#'})
    requires tail == "" || tail[0] == '?' || tail[0] == '#'
    ensures DissectRest(scheme, authority + path + tail, v6) ==
            var a, p := Authority(authority, scheme, v6), NormalizePath(path);
            if a.None? || p.None? then None else Some(Parts(scheme, a.value.0, a.value.1, p.value))
  {
    hide Authority, NormalizePath;
    var rest := path + tail;
    assert authority + path + tail == authority + rest;
    assert Excludes(authority, {'/', '?', '#'}) && Excludes(authority, {'@'});
    CutAt(authority, rest, {'/', '?', '#'});
    CutAt(path, tail, {'?', '#'});
  }

  lemma EmptyAuthority(scheme: string, rest: string, v6: V6)
    requires rest == "" || rest[0] in {'/', '?', '#'}
    ensures DissectRest(scheme, rest, v6) == None
  {
    FindFirstIs(rest, {'/', '?', '#'}, 0);
  }

  lemma PathRead(path: string)
    requires path == "" || path[0] == '/'
    ensures NormalizePath(path) == if Normalize(path).None? then None else Some(PathPrinted(path))
  {
    if path == "" {
      PlainFixed("");
    }
  }

  lemma PortRead(scheme: string, port: string)
    ensures ParsePort(port).Some? <==> GoodPort(Some(port))
    ensures GoodPort(Some(port)) ==> PortText(DropDefault(scheme, ParsePort(port))) == PortPrinted(scheme, Some(port))
  {
  }

  lemma NamedAuthority(scheme: string, host: string, port: Option<string>)
    requires Excludes(host, {':', '[', ']'}) && (port.Some? ==> Excludes(port.value, {':', '[', ']'}))
    requires WithPort(host, port) != ""
    ensures var a := RegAuthority(WithPort(host, port), scheme);
            if host == "" || NormalizeRegName(host).None? || !GoodPort(port) then a == None
            else
              && a.Some? && a.value.0 == NormalizeRegName(host).value
              && PortText(a.value.1) == PortPrinted(scheme, port)
  {
    hide NormalizeRegName, ParsePort, DropDefault, GoodPort, PortPrinted, PortText;
    var text := WithPort(host, port);
    if port.Some? {
      var tail := ":" + port.value;
      assert text == host + tail && tail[1..] == port.value;
      CutAt(host, tail, {':'});
      NoBrackets(host, tail);
      PortRead(scheme, port.value);
    } else {
      assert text == host + "";
      CutAt(host, "", {':'});
      NoBrackets(host, "");
      NoPort(scheme);
    }
  }

  lemma NoPort(scheme: string)
    ensures GoodPort(None) && PortPrinted(scheme, None) == PortText(None)
  {
  }

  lemma NoBrackets(host: string, tail: string)
    requires Excludes(host, {':', '[', ']'}) && (tail != "" ==> tail[0] == ':' && Excludes(tail[1..], {':', '[', ']'}))
    ensures Excludes(host + tail, {'[', ']'}) && (tail != "" ==> Excludes(tail[1..], {':'})) && Excludes(host, {':'})
  {
    assert forall i :: 1 <= i < |tail| ==> tail[i] == tail[1..][i - 1];
  }

  /** Normalisation of a target with a registered name, from its text: which are refused and what the others become. */
  lemma NamedTarget(scheme: string, host: string, port: Option<string>, path: string, tail: string, v6: V6)
    requires Framed(scheme, path, tail) && Acceptable(Spelled(scheme, WithPort(host, port), path, tail))
    requires Excludes(host, {'/', '?', '#', '@', ':', '[', ']'})
    requires port.Some? ==> Excludes(port.value, {'/', '?', '#', '@', ':', '[', ']'})
    ensures NormalizeTarget(Spelled(scheme, WithPort(host, port), path, tail), v6) ==
            if host == "" || NormalizeRegName(host).None? || !GoodPort(port) || Normalize(path).None? then None
            else Some(Lower(scheme) + "://" +
                      (NormalizeRegName(host).value + PortPrinted(Lower(scheme), port) + PathPrinted(path)))
  {
    hide NormalizeRegName, Normalize, GoodPort, PortPrinted, PathPrinted, DissectRest, SplitScheme, RegAuthority,
         NormalizePath;
    var authority := WithPort(host, port);
    var input := Spelled(scheme, authority, path, tail);
    SpelledScheme(scheme, authority, path, tail);
    AcceptableVisible(input);
    if authority == "" {
      EmptyAuthority(Lower(scheme), authority + path + tail, v6);
    } else {
      assert Excludes(authority, {'/', '?', '#', '@'}) && authority[0] != '[';
      SpelledRest(Lower(scheme), authority, path, tail, v6);
      NamedAuthority(Lower(scheme), host, port);
      PathRead(path);
    }
  }

  lemma AcceptableVisible(input: string)
    ensures Acceptable(input) <==> |input| <= MAX_TARGET_BYTES && Visible(input)
  {
  }

  lemma BracketAuthority(scheme: string, literal: string, port: Option<string>, v6: V6)
    requires Excludes(literal, {']'})
    ensures var a := Authority(WithPort("[" + literal + "]", port), scheme, v6);
            if v6(literal).None? || !GoodPort(port) then a == None
            else
              && a.Some? && a.value.0 == "[" + v6(literal).value + "]"
              && PortText(a.value.1) == PortPrinted(scheme, port)
  {
    hide ParsePort, DropDefault, GoodPort, PortPrinted, PortText;
    var tail := if port.Some? then ":" + port.value else "";
    var text := WithPort("[" + literal + "]", port);
    assert text == "[" + literal + "]" + tail;
    var close := 1 + |literal|;
    assert text[close] == ']';
    FindFirstIs(text, {']'}, close);
    assert text[1..close] == literal && text[close + 1..] == tail;
    if port.Some? {
      assert tail[1..] == port.value;
      PortRead(scheme, port.value);
    } else {
      NoPort(scheme);
    }
  }

  /** Normalisation of a target with a bracketed literal, from its text. */
  lemma BracketTarget(scheme: string, literal: string, port: Option<string>, path: string, tail: string, v6: V6)
    requires Framed(scheme, path, tail) && Acceptable(Spelled(scheme, WithPort("[" + literal + "]", port), path, tail))
    requires Excludes(literal, {'/', '?', '#', '@', ']'}) && (port.Some? ==> Excludes(port.value, {'/', '?', '#', '@'}))
    ensures NormalizeTarget(Spelled(scheme, WithPort("[" + literal + "]", port), path, tail), v6) ==
            if v6(literal).None? || !GoodPort(port) || Normalize(path).None? then None
            else Some(Lower(scheme) + "://" +
                      ("[" + v6(literal).value + "]" + PortPrinted(Lower(scheme), port) + PathPrinted(path)))
  {
    hide Normalize, GoodPort, PortPrinted, PathPrinted, DissectRest, SplitScheme, Authority, NormalizePath;
    var authority := WithPort("[" + literal + "]", port);
    SpelledScheme(scheme, authority, path, tail);
    AcceptableVisible(Spelled(scheme, authority, path, tail));
    BracketExcludes(literal, port);
    SpelledRest(Lower(scheme), authority, path, tail, v6);
    BracketAuthority(Lower(scheme), literal, port, v6);
    PathRead(path);
  }

  lemma BracketExcludes(literal: string, port: Option<string>)
    requires Excludes(literal, {'/', '?', '#', '@', ']'}) && (port.Some? ==> Excludes(port.value, {'/', '?', '#', '@'}))
    ensures var authority := WithPort("[" + literal + "]", port);
            authority != "" && Excludes(authority, {'/', '?', '#', '@'})
  {
  }

  /** A target taken apart as written. */
  datatype Pieces = Pieces(
    scheme: string, bracketed: bool, host: string, port: Option<string>, path: string, tail: string)

  function Written(p: Pieces): string {
    Spelled(p.scheme, WithPort(if p.bracketed then "[" + p.host + "]" else p.host, p.port), p.path, p.tail)
  }

  predicate Proper(p: Pieces) {
    && Framed(p.scheme, p.path, p.tail) && Acceptable(Written(p))
    && Excludes(p.host, {'/', '?', '#', '@', ']'})
       && (p.port.Some? ==> Excludes(p.port.value, {'/', '?', '#', '@', ':', '[', ']'}))
    && (!p.bracketed ==> Excludes(p.host, {':', '['}))
  }

  lemma SchemeText(input: string)
    requires SplitScheme(input).Some?
    ensures var k := FindFirst(input, {':'});
            && k + 3 <= |input| && input == input[..k] + "://" + input[k + 3..]
            && SplitScheme(input).value == (Lower(input[..k]), input[k + 3..])
            && (Lower(input[..k]) == "http" || Lower(input[..k]) == "https")
  {
    hide Lower;
    SchemeCut(input, FindFirst(input, {':'}));
  }

  lemma SchemeCut(input: string, k: nat)
    requires k < |input| && input[k] == ':' && HasPrefix(input[k + 1..], "//")
    ensures k + 3 <= |input| && input == input[..k] + "://" + input[k + 3..]
  {
    var rest := input[k + 1..];
    assert rest[0] == rest[..2][0] && rest[1] == rest[..2][1];
  }

  lemma NamedPieces(text: string, scheme: string) returns (host: string, port: Option<string>)
    requires text != "" && RegAuthority(text, scheme).Some?
    ensures text == WithPort(host, port) && Excludes(host, {':', '[', ']'})
    ensures port.Some? ==> Excludes(port.value, {':', '[', ']'})
  {
    hide NormalizeRegName, DropDefault, DecimalValue;
    var k := FindFirst(text, {':'});
    host, port := text[..k], if k < |text| then Some(text[k + 1..]) else None;
    if k < |text| {
      assert text == host + ":" + text[k + 1..];
    }
  }

  lemma BracketPieces(text: string, scheme: string, v6: V6) returns (host: string, port: Option<string>)
    requires text != "" && text[0] == '[' && V6Authority(text, scheme, v6).Some?
    ensures text == WithPort("[" + host + "]", port) && Excludes(host, {']'})
    ensures port.Some? ==> Excludes(port.value, {':', '[', ']'})
  {
    hide DropDefault, DecimalValue;
    var close := FindFirst(text, {']'});
    var tail := text[close + 1..];
    host, port := text[1..close], if tail == "" then None else Some(tail[1..]);
    assert text == "[" + host + "]" + tail;
    if tail != "" {
      assert tail == ":" + tail[1..];
    }
  }

  lemma AuthorityPieces(text: string, scheme: string, v6: V6)
      returns (bracketed: bool, host: string, port: Option<string>)
    requires text != "" && Excludes(text, {'/', '?', '#', '@'}) && Authority(text, scheme, v6).Some?
    ensures text == WithPort(if bracketed then "[" + host + "]" else host, port)
    ensures Excludes(host, {'/', '?', '#', '@', ']'}) && (!bracketed ==> Excludes(host, {':', '['}))
    ensures port.Some? ==> Excludes(port.value, {'/', '?', '#', '@', ':', '[', ']'})
  {
    bracketed := text[0] == '[';
    if bracketed {
      host, port := BracketPieces(text, scheme, v6);
    } else {
      host, port := NamedPieces(text, scheme);
    }
    var shown := if bracketed then "[" + host + "]" else host;
    PartsExclude(text, shown, port);
    if bracketed {
      assert forall i :: 0 <= i < |host| ==> host[i] == shown[i + 1];
    }
  }

  lemma PartsExclude(text: string, host: string, port: Option<string>)
    requires text == WithPort(host, port) && Excludes(text, {'/', '?', '#', '@'})
    ensures Excludes(host, {'/', '?', '#', '@'}) && (port.Some? ==> Excludes(port.value, {'/', '?', '#', '@'}))
  {
    assert forall i :: 0 <= i < |host| ==> host[i] == text[i];
    if port.Some? {
      assert forall i :: 0 <= i < |port.value| ==> port.value[i] == text[|host| + 1 + i];
    }
  }

  /** Every accepted target is written in one of these two forms; everything else is refused. */
  lemma AcceptedText(input: string, v6: V6) returns (p: Pieces)
    requires NormalizeTarget(input, v6).Some?
    ensures Proper(p) && input == Written(p)
  {
    hide Authority, DissectRest, SplitScheme, Acceptable, Excludes, AuthorityEnd;
    var colon := FindFirst(input, {':'});
    SchemeText(input);
    var scheme, after := input[..colon], input[colon + 3..];
    var path, tail := RestPieces(Lower(scheme), after, v6);
    var text := after[..AuthorityEnd(after)];
    var bracketed, host, port := AuthorityPieces(text, Lower(scheme), v6);
    p := Pieces(scheme, bracketed, host, port, path, tail);
    AcceptableVisible(input);
    SpelledTogether(scheme, text, path, tail);
  }

  lemma SpelledTogether(scheme: string, authority: string, path: string, tail: string)
    ensures Spelled(scheme, authority, path, tail) == scheme + "://" + (authority + path + tail)
  {
  }

  lemma RestPieces(scheme: string, after: string, v6: V6) returns (path: string, tail: string)
    requires DissectRest(scheme, after, v6).Some?
    ensures var text := after[..AuthorityEnd(after)];
            && after == text + path + tail && text != "" && Excludes(text, {'/', '?', '#', '@'})
            && Authority(text, scheme, v6).Some?
    ensures (path == "" || path[0] == '/') && Excludes(path, {'?', '#'})
    ensures tail == "" || tail[0] == '?' || tail[0] == '#'
  {
    hide Authority, Normalize, RemoveDots;
    var rest := after[AuthorityEnd(after)..];
    var n := FindFirst(rest, {'?', '#'});
    path, tail := rest[..n], rest[n..];
  }
}
