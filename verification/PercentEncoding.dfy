/** Percent-encoding normalisation, sections 2.1 and 6.2.2 of RFC 3986
    (crates/keylix-dpop/src/request.rs, lines 242 to 302). */
module PercentEncoding {
  import opened Text

  /** What a valid string says: literal characters and escaped bytes. */
  datatype Token = Lit(c: char) | Esc(value: Byte)

  predicate IsUnreserved(v: int) {
    || 'A' as int <= v <= 'Z' as int
    || 'a' as int <= v <= 'z' as int
    || '0' as int <= v <= '9' as int
    || v == '-' as int || v == '.' as int || v == '_' as int || v == '~' as int
  }

  function HexValue(c: char): (r: Option<nat>)
    ensures r.Some? ==> r.value < 16
  {
    if IsDigit(c) then Some((c - '0') as int)
    else if 'a' <= c <= 'f' then Some((c - 'a') as int + 10)
    else if 'A' <= c <= 'F' then Some((c - 'A') as int + 10)
    else None
  }

  function HexUpper(v: nat): (c: char)
    requires v < 16
    ensures HexValue(c) == Some(v) && HexValue(LowerChar(c)) == Some(v)
    ensures IsUnreserved(c as int)
  {
    if v < 10 then '0' + v as char else 'A' + (v - 10) as char
  }

  /** The escape at the head of `s`, when there is one. */
  function Escape(s: string): (r: Option<Byte>)
    ensures r.Some? ==> |s| >= 3
  {
    if |s| < 3 || s[0] != '%' || HexValue(s[1]).None? || HexValue(s[2]).None? then None
    else Some(16 * HexValue(s[1]).value + HexValue(s[2]).value)
  }

  /** Reads a string as tokens; None when an escape is truncated or not hexadecimal. */
  function Tokens(s: string): Option<seq<Token>>
  {
    if s == "" then Some([])
    else if s[0] != '%' then
      match Tokens(s[1..])
      case None => None
      case Some(ts) => Some([Lit(s[0])] + ts)
    else if Escape(s).None? then None
    else
      match Tokens(s[3..])
      case None => None
      case Some(ts) => Some([Esc(Escape(s).value)] + ts)
  }

  function RenderToken(t: Token): string {
    match t
    case Lit(c) => [c]
    case Esc(v) => ['%', HexUpper(v / 16), HexUpper(v % 16)]
  }

  lemma EscapeRendered(v: Byte)
    ensures Escape(RenderToken(Esc(v))) == Some(v)
    ensures Escape(Lower(RenderToken(Esc(v)))) == Some(v)
  {
  }

  function Render(ts: seq<Token>): string {
    if ts == [] then "" else RenderToken(ts[0]) + Render(ts[1..])
  }

  /** Tokens that the reader can produce. */
  predicate Readable(ts: seq<Token>) {
    Lit('%') !in ts
  }

  function Canon(t: Token): Token {
    match t
    case Lit(_) => t
    case Esc(v) => if IsUnreserved(v) then Lit(v as char) else t
  }

  function CanonAll(ts: seq<Token>): (r: seq<Token>)
    ensures |r| == |ts|
  {
    seq(|ts|, i requires 0 <= i < |ts| => Canon(ts[i]))
  }

  /** The normalised spelling of a string. */
  function Normalize(s: string): Option<string> {
    match Tokens(s)
    case None => None
    case Some(ts) => Some(Render(CanonAll(ts)))
  }

  lemma {:induction false} TokensReadable(s: string)
    ensures Tokens(s).Some? ==> Readable(Tokens(s).value)
  {
    if s == "" {
    } else if s[0] != '%' {
      TokensReadable(s[1..]);
    } else if Escape(s).Some? {
      TokensReadable(s[3..]);
    }
  }

  /** A spelling of one token in front of a readable string reads as that token first. */
  lemma ReadOne(head: string, tail: string, t: Token)
    requires match t
             case Lit(c) => c != '%' && head == [c]
             case Esc(v) => |head| == 3 && head[0] == '%' && Escape(head) == Some(v)
    requires Tokens(tail).Some?
    ensures Tokens(head + tail) == Some([t] + Tokens(tail).value)
  {
  }

  /** Reading back what was rendered gives the same tokens. */
  lemma {:induction false} RenderRoundTrip(ts: seq<Token>)
    requires Readable(ts)
    ensures Tokens(Render(ts)) == Some(ts)
  {
    if ts != [] {
      RenderRoundTrip(ts[1..]);
      if ts[0].Esc? {
        EscapeRendered(ts[0].value);
      }
      ReadOne(RenderToken(ts[0]), Render(ts[1..]), ts[0]);
      assert ts == [ts[0]] + ts[1..];
    }
  }

  lemma RenderInjective(ts: seq<Token>, us: seq<Token>)
    requires Readable(ts) && Readable(us)
    ensures Render(ts) == Render(us) <==> ts == us
  {
    RenderRoundTrip(ts);
    RenderRoundTrip(us);
  }

  predicate Alphanumeric(c: char) {
    'A' <= c <= 'Z' || 'a' <= c <= 'z' || '0' <= c <= '9'
  }

  /** Two tokens mean the same byte in the same role: equal, or one is the needless escape of the
      other. An escape of a reserved byte agrees with no literal. */
  predicate Agree(t: Token, u: Token) {
    match (t, u)
    case (Lit(c), Lit(d)) => c == d
    case (Esc(v), Esc(w)) => v == w
    case (Lit(c), Esc(v)) => IsUnreserved(v) && c as int == v
    case (Esc(v), Lit(c)) => IsUnreserved(v) && c as int == v
  }

  predicate AgreeAll(ts: seq<Token>, us: seq<Token>) {
    |ts| == |us| && forall i :: 0 <= i < |ts| ==> Agree(ts[i], us[i])
  }

  /** Normalisation is a canonical form: equal outputs exactly when the tokens agree one by one
      up to the case of hexadecimal digits and needless escapes. */
  lemma CanonicalForm(a: string, b: string)
    requires Tokens(a).Some? && Tokens(b).Some?
    ensures Normalize(a) == Normalize(b) <==> AgreeAll(Tokens(a).value, Tokens(b).value)
  {
    var ts, us := Tokens(a).value, Tokens(b).value;
    TokensReadable(a);
    TokensReadable(b);
    RenderInjective(CanonAll(ts), CanonAll(us));
    if CanonAll(ts) == CanonAll(us) {
      forall i | 0 <= i < |ts|
        ensures Agree(ts[i], us[i])
      {
        assert CanonAll(ts)[i] == CanonAll(us)[i];
      }
    }
    if AgreeAll(ts, us) {
      assert forall i :: 0 <= i < |ts| ==> Canon(ts[i]) == Canon(us[i]);
      assert CanonAll(ts) == CanonAll(us);
    }
  }

  /** An escaped reserved byte never becomes its literal: replacing the escape of any byte but a letter, a digit, '-',
      '.', '_', '~' or '%' by that byte changes the normal form. */
  lemma ReservedStaysEscaped(pre: seq<Token>, v: Byte, post: seq<Token>)
    requires Readable(pre) && Readable(post)
    requires !Alphanumeric(v as char) && v as char !in "-._~%"
    ensures Normalize(Render(pre + [Esc(v)] + post)) != Normalize(Render(pre + [Lit(v as char)] + post))
  {
    var ts, us := pre + [Esc(v)] + post, pre + [Lit(v as char)] + post;
    RenderRoundTrip(ts);
    RenderRoundTrip(us);
    CanonicalForm(Render(ts), Render(us));
    assert !Agree(ts[|pre|], us[|pre|]);
  }

  /** A canonical token sequence renders to a string that normalises to itself. */
  lemma CanonicalFixed(ts: seq<Token>)
    requires Readable(ts) && CanonAll(ts) == ts
    ensures Normalize(Render(ts)) == Some(Render(ts))
  {
    RenderRoundTrip(ts);
  }

  lemma CanonCanonical(ts: seq<Token>)
    requires Readable(ts)
    ensures Readable(CanonAll(ts)) && CanonAll(CanonAll(ts)) == CanonAll(ts)
  {
  }

  lemma NormalizeIdempotent(s: string)
    requires Normalize(s).Some?
    ensures Normalize(Normalize(s).value) == Normalize(s)
  {
    TokensReadable(s);
    CanonCanonical(Tokens(s).value);
    CanonicalFixed(CanonAll(Tokens(s).value));
  }

  /** Normalisation never lengthens, never empties, and adds only unreserved characters. */
  lemma {:induction false} NormalizeBounds(s: string)
    requires Tokens(s).Some?
    ensures var out := Normalize(s).value;
            && |out| <= |s|
            && (s != "" ==> out != "")
            && (forall i :: 0 <= i < |out| ==> out[i] in s || IsUnreserved(out[i] as int))
  {
    if s != "" {
      NormalizeStep(s);
      var n := if s[0] != '%' then 1 else 3;
      NormalizeBounds(s[n..]);
      var head := if s[0] != '%' then [s[0]] else RenderToken(Canon(Esc(Escape(s).value)));
      HeadBounds(s, head);
      var tail := Normalize(s[n..]).value;
      assert Normalize(s).value == head + tail;
      assert forall c :: c in s[n..] ==> c in s;
    } else {
      assert CanonAll([]) == [];
    }
  }

  lemma HeadBounds(s: string, head: string)
    requires s != "" && Tokens(s).Some?
    requires head == if s[0] != '%' then [s[0]] else RenderToken(Canon(Esc(Escape(s).value)))
    ensures 1 <= |head| <= if s[0] != '%' then 1 else 3
    ensures forall i :: 0 <= i < |head| ==> head[i] in s || IsUnreserved(head[i] as int)
  {
  }

  /** A leading slash is kept. */
  lemma KeepsSlash(s: string)
    requires Tokens(s).Some? && HasPrefix(s, "/")
    ensures HasPrefix(Normalize(s).value, "/")
  {
  }

  /** `normalize_percent_encoding`: one pass with an index and a growing output. */
  method NormalizePercentEncoding(input: string) returns (r: Option<string>)
    ensures r == Normalize(input)
  {
    var output := "";
    var index := 0;
    ghost var rest := input;
    assert forall s: string :: "" + s == s;
    while index < |input|
      invariant 0 <= index <= |input|
      invariant rest == input[index..]
      invariant Normalize(input) == Prepend(output, Normalize(rest))
    {
      NormalizeStep(rest);
      if input[index] != '%' {
        PrependTwice(output, [input[index]], Normalize(rest[1..]));
        output := output + [input[index]];
        index := index + 1;
        rest := rest[1..];
        continue;
      }
      if index + 2 >= |input| {
        return None;
      }
      var high := HexValue(input[index + 1]);
      var low := HexValue(input[index + 2]);
      if high.None? || low.None? {
        return None;
      }
      var value := 16 * high.value + low.value;
      assert Escape(rest) == Some(value) && value / 16 == high.value && value % 16 == low.value;
      PrependTwice(output, RenderToken(Canon(Esc(value))), Normalize(rest[3..]));
      if IsUnreserved(value) {
        output := output + [value as char];
      } else {
        output := output + ['%', HexUpper(high.value), HexUpper(low.value)];
      }
      index := index + 3;
      rest := rest[3..];
    }
    assert rest == "";
    assert CanonAll([]) == [];
    assert output + "" == output;
    return Some(output);
  }

  function Prepend(head: string, tail: Option<string>): Option<string> {
    match tail
    case None => None
    case Some(s) => Some(head + s)
  }

  lemma PrependTwice(a: string, b: string, tail: Option<string>)
    ensures Prepend(a, Prepend(b, tail)) == Prepend(a + b, tail)
  {
    if tail.Some? {
      assert a + (b + tail.value) == a + b + tail.value;
    }
  }

  lemma NormalizeStep(s: string)
    requires s != ""
    ensures s[0] != '%' ==> Normalize(s) == Prepend([s[0]], Normalize(s[1..]))
    ensures s[0] == '%' && Escape(s).None? ==> Normalize(s) == None
    ensures s[0] == '%' && Escape(s).Some? ==>
              Normalize(s) == Prepend(RenderToken(Canon(Esc(Escape(s).value))), Normalize(s[3..]))
  {
    if Tokens(s).Some? {
      var ts := Tokens(s).value;
      var rest := Tokens(s[if s[0] != '%' then 1 else 3..]).value;
      assert CanonAll(ts)[1..] == CanonAll(rest);
    }
  }

  // ---- From the text ----

  const LOWER_HEX := "0123456789abcdef"
  const UPPER_HEX := "0123456789ABCDEF"

  predicate HexCharacter(c: char) {
    '0' <= c <= '9' || 'a' <= c <= 'f' || 'A' <= c <= 'F'
  }

  /** An ordinary character in front is kept. */
  lemma LiteralKept(c: char, rest: string)
    requires c != '%'
    ensures Normalize([c] + rest) == Prepend([c], Normalize(rest))
  {
    assert ([c] + rest)[1..] == rest;
    NormalizeStep([c] + rest);
  }

  lemma HexTables(i: nat, c: char)
    requires i < 16 && (c == LOWER_HEX[i] || c == UPPER_HEX[i])
    ensures HexValue(c) == Some(i) && HexUpper(i) == UPPER_HEX[i]
  {
    assert forall k :: 0 <= k < 10 ==> LOWER_HEX[k] == '0' + k as char && UPPER_HEX[k] == '0' + k as char;
    assert forall k :: 10 <= k < 16 ==>
             LOWER_HEX[k] == 'a' + (k - 10) as char && UPPER_HEX[k] == 'A' + (k - 10) as char;
  }

  /** An escape in front, in either case of its digits, becomes the character exactly for letters, digits, '-', '.',
      '_' and '~', and otherwise the escape with upper-case digits. */
  lemma EscapeDecides(i: nat, j: nat, high: char, low: char, rest: string)
    requires i < 16 && (high == LOWER_HEX[i] || high == UPPER_HEX[i])
    requires j < 16 && (low == LOWER_HEX[j] || low == UPPER_HEX[j])
    ensures var c := (16 * i + j) as char;
            Normalize(['%', high, low] + rest) ==
            Prepend(if Alphanumeric(c) || c in "-._~" then [c] else ['%', UPPER_HEX[i], UPPER_HEX[j]], Normalize(rest))
  {
    hide Escape, RenderToken, Canon, Normalize, Tokens, Prepend, Alphanumeric;
    EscapeReads(i, j, high, low, rest);
    EscapeWrites(i, j);
    NormalizeStep(['%', high, low] + rest);
  }

  lemma EscapeReads(i: nat, j: nat, high: char, low: char, rest: string)
    requires i < 16 && (high == LOWER_HEX[i] || high == UPPER_HEX[i])
    requires j < 16 && (low == LOWER_HEX[j] || low == UPPER_HEX[j])
    ensures var s := ['%', high, low] + rest; s != "" && s[0] == '%' && Escape(s) == Some(16 * i + j) && s[3..] == rest
  {
    hide HexValue;
    HexTables(i, high);
    HexTables(j, low);
    assert (['%', high, low] + rest)[3..] == rest;
  }

  lemma EscapeWrites(i: nat, j: nat)
    requires i < 16 && j < 16
    ensures var c := (16 * i + j) as char;
            RenderToken(Canon(Esc(16 * i + j))) ==
            if Alphanumeric(c) || c in "-._~" then [c] else ['%', UPPER_HEX[i], UPPER_HEX[j]]
  {
    hide HexUpper, IsUnreserved, Alphanumeric;
    HexTables(i, UPPER_HEX[i]);
    HexTables(j, UPPER_HEX[j]);
    Nibbles(i, j);
    UnreservedWritten(16 * i + j);
  }

  lemma Nibbles(i: nat, j: nat)
    requires i < 16 && j < 16
    ensures (16 * i + j) / 16 == i && (16 * i + j) % 16 == j && 16 * i + j < 256
  {
  }

  lemma UnreservedWritten(v: Byte)
    ensures IsUnreserved(v) <==> Alphanumeric(v as char) || v as char in "-._~"
  {
  }

  /** A percent sign without two hexadecimal digits spoils the text. */
  lemma BrokenEscape(s: string)
    requires s != "" && s[0] == '%' && (|s| < 3 || !HexCharacter(s[1]) || !HexCharacter(s[2]))
    ensures Normalize(s) == None
  {
  }

  /** The two classes of section 2 of RFC 3986: a visible character is unreserved unless it is one of the reserved
      ones or may not stand in a URI. */
  lemma CharacterClasses(v: Byte)
    ensures IsUnreserved(v) <==>
              0x20 < v < 0x7f && v as char !in ":/?#[]@!$&'()*+,;=" && v as char !in "\"%<>\\^`{|}"
  {
  }

  // ---- Registered-name hosts ----

  function LowerToken(t: Token): Token {
    match t
    case Lit(c) => Lit(LowerChar(c))
    case Esc(_) => t
  }

  function LowerAll(ts: seq<Token>): (r: seq<Token>)
    ensures |r| == |ts|
  {
    seq(|ts|, i requires 0 <= i < |ts| => LowerToken(ts[i]))
  }

  /** `normalize_reg_name_host`: normalise, lower the case of everything, normalise again. */
  function NormalizeRegName(host: string): Option<string> {
    match Normalize(host)
    case None => None
    case Some(n) => Normalize(Lower(n))
  }

  /** Lowering a rendered string lowers its literals and leaves what its escapes mean. */
  lemma {:induction false} LowerRendered(ts: seq<Token>)
    requires Readable(ts)
    ensures Tokens(Lower(Render(ts))) == Some(LowerAll(ts))
  {
    if ts != [] {
      LowerRendered(ts[1..]);
      if ts[0].Esc? {
        EscapeRendered(ts[0].value);
      }
      LowerConcat(RenderToken(ts[0]), Render(ts[1..]));
      ReadOne(Lower(RenderToken(ts[0])), Lower(Render(ts[1..])), LowerToken(ts[0]));
      assert LowerAll(ts) == [LowerToken(ts[0])] + LowerAll(ts[1..]);
    }
  }

  /** Two passes amount to lowering the literals of the canonical tokens. */
  lemma RegNameForm(host: string)
    ensures NormalizeRegName(host) ==
            match Tokens(host)
            case None => None
            case Some(ts) => Some(Render(LowerAll(CanonAll(ts))))
  {
    if Tokens(host).Some? {
      var ts := Tokens(host).value;
      TokensReadable(host);
      CanonCanonical(ts);
      LowerRendered(CanonAll(ts));
      assert CanonAll(LowerAll(CanonAll(ts))) == LowerAll(CanonAll(ts));
    }
  }

  lemma RegNameIdempotent(host: string)
    requires NormalizeRegName(host).Some?
    ensures NormalizeRegName(NormalizeRegName(host).value) == NormalizeRegName(host)
  {
    RegNameForm(host);
    TokensReadable(host);
    var us := LowerAll(CanonAll(Tokens(host).value));
    LowerCanonFixed(Tokens(host).value);
    RenderRoundTrip(us);
    RegNameForm(Render(us));
  }

  lemma LowerCanonFixed(ts: seq<Token>)
    requires Readable(ts)
    ensures var us := LowerAll(CanonAll(ts)); Readable(us) && CanonAll(us) == us && LowerAll(us) == us
  {
  }

  // ---- Lengths ----

  /** How many characters the tokens take. */
  function Width(ts: seq<Token>): nat {
    if ts == [] then 0 else (if ts[0].Lit? then 1 else 3) + Width(ts[1..])
  }

  lemma {:induction false} RenderWidth(ts: seq<Token>)
    ensures |Render(ts)| == Width(ts)
  {
    if ts != [] {
      RenderWidth(ts[1..]);
    }
  }

  lemma {:induction false} TokensWidth(s: string)
    requires Tokens(s).Some?
    ensures Width(Tokens(s).value) == |s|
  {
    if s != "" {
      var n := if s[0] != '%' then 1 else 3;
      TokensWidth(s[n..]);
      assert Tokens(s).value[1..] == Tokens(s[n..]).value;
    }
  }

  /** An escape of a byte that needs none. */
  predicate NeedlessEscape(ts: seq<Token>) {
    exists i :: 0 <= i < |ts| && ts[i].Esc? && IsUnreserved(ts[i].value)
  }

  lemma {:induction false} CanonWidth(ts: seq<Token>)
    ensures Width(LowerAll(CanonAll(ts))) <= Width(ts)
    ensures Width(LowerAll(CanonAll(ts))) < Width(ts) <==> NeedlessEscape(ts)
  {
    if ts != [] {
      CanonWidth(ts[1..]);
      assert LowerAll(CanonAll(ts))[1..] == LowerAll(CanonAll(ts[1..]));
      assert NeedlessEscape(ts) <==> (ts[0].Esc? && IsUnreserved(ts[0].value)) || NeedlessEscape(ts[1..]) by {
        assert ts == [ts[0]] + ts[1..];
        if NeedlessEscape(ts[1..]) {
          var i :| 0 <= i < |ts| - 1 && ts[1..][i].Esc? && IsUnreserved(ts[1..][i].value);
          assert ts[i + 1] == ts[1..][i];
        }
      }
    }
  }

  /** Normalisation shortens a host exactly when it spells out an escape that it does not need. */
  lemma RegNameShortens(host: string)
    requires NormalizeRegName(host).Some?
    ensures |NormalizeRegName(host).value| < |host| <==> NeedlessEscape(Tokens(host).value)
  {
    RegNameForm(host);
    var ts := Tokens(host).value;
    TokensWidth(host);
    CanonWidth(ts);
    RenderWidth(LowerAll(CanonAll(ts)));
  }

  lemma RegNameBounds(host: string)
    requires NormalizeRegName(host).Some?
    ensures var out := NormalizeRegName(host).value;
            && |out| <= |host|
            && (host != "" ==> out != "")
            && (forall i :: 0 <= i < |out| ==> out[i] in host || IsUnreserved(out[i] as int))
  {
    NormalizeBounds(host);
    var n := Normalize(host).value;
    NormalizeBounds(Lower(n));
    forall i | 0 <= i < |n|
      ensures Lower(n)[i] in host || IsUnreserved(Lower(n)[i] as int)
    {
    }
  }
}
