/** One `Forwarded` header value of a trusted proxy (section 4 of RFC 7239;
    crates/keylix-http/src/lib.rs, lines 227 to 262, 275 to 284 and 322 to 355). */
module Forwarded {
  import opened Text

  const MAX_FORWARDING_VALUE_BYTES := 1024

  datatype Error = Invalid | Ambiguous | Missing

  datatype Outcome = Target(proto: string, host: string) | Refused(error: Error)

  predicate Ows(c: char) { c == ' ' || c == '\t' }

  function Trim(s: string): string
    decreases |s|
  {
    if s != "" && Ows(s[0]) then Trim(s[1..])
    else if s != "" && Ows(s[|s| - 1]) then Trim(s[..|s| - 1])
    else s
  }

  predicate ValueChar(c: char) {
    c > ' ' && c != '\U{7f}'
  }

  datatype Param = Param(name: string, value: string)

  /** The name and value of one parameter, if it is well formed. */
  function ParamOf(piece: string): Option<Param> {
    var t := Trim(piece);
    var k := FindFirst(t, {'='});
    if k == |t| then None
    else
      var name, value := Trim(t[..k]), Trim(t[k + 1..]);
      if name == "" || value == "" || (exists c :: c in name && !IsToken(c))
         || (exists c :: c in value && !ValueChar(c))
      then None
      else Some(Param(name, value))
  }

  predicate Named(piece: string, name: string) {
    ParamOf(piece).Some? && Lower(ParamOf(piece).value.name) == name
  }

  predicate Ascii(s: string) {
    forall c :: c in s ==> c < '\U{80}'
  }

  /** No second hop and no quoting. */
  predicate Unquoted(s: string) {
    forall c :: c in s ==> c != ',' && c != '"' && c != '\\'
  }

  // The parser as a fold over the parameters

  function Walk(ps: seq<string>, proto: Option<string>, host: Option<string>): Outcome {
    if ps == [] then
      if proto.None? || host.None? then Refused(Missing) else Target(proto.value, host.value)
    else if ParamOf(ps[0]).None? then Refused(Invalid)
    else
      var value := ParamOf(ps[0]).value.value;
      if Named(ps[0], "proto") then
        if proto.Some? then Refused(Ambiguous) else Walk(ps[1..], Some(value), host)
      else if Named(ps[0], "host") then
        if host.Some? then Refused(Ambiguous) else Walk(ps[1..], proto, Some(value))
      else Walk(ps[1..], proto, host)
  }

  function Parse(raw: string): Outcome {
    if raw == "" || |raw| > MAX_FORWARDING_VALUE_BYTES || !Ascii(raw) || Trim(raw) == "" then Refused(Invalid)
    else if !Unquoted(Trim(raw)) then Refused(Ambiguous)
    else Walk(Split(Trim(raw), ';'), None, None)
  }

  /** `parse_single_forwarded`. */
  method ParseSingleForwarded(raw: string) returns (r: Outcome)
    ensures r == Parse(raw)
  {
    hide ParamOf, Trim, Split, Lower, Ascii, Unquoted;
    if raw == "" || |raw| > MAX_FORWARDING_VALUE_BYTES || !Ascii(raw) {
      return Refused(Invalid);
    }
    var trimmed := Trim(raw);
    if trimmed == "" {
      return Refused(Invalid);
    }
    if !Unquoted(trimmed) {
      return Refused(Ambiguous);
    }
    var pieces := Split(trimmed, ';');
    var proto: Option<string>, host: Option<string> := None, None;
    var i := 0;
    while i < |pieces|
      invariant i <= |pieces| && Walk(pieces[i..], proto, host) == Walk(pieces, None, None)
    {
      var param := ParamOf(pieces[i]);
      if param.None? {
        return Refused(Invalid);
      }
      var name := Lower(param.value.name);
      if name == "proto" {
        if proto.Some? {
          return Refused(Ambiguous);
        }
        proto := Some(param.value.value);
      } else if name == "host" {
        if host.Some? {
          return Refused(Ambiguous);
        }
        host := Some(param.value.value);
      }
      i := i + 1;
    }
    if proto.None? || host.None? {
      return Refused(Missing);
    }
    return Target(proto.value, host.value);
  }

  // What the fold decides

  predicate AllGood(ps: seq<string>) {
    forall i :: 0 <= i < |ps| ==> ParamOf(ps[i]).Some?
  }

  /** The values given for a name, in order. */
  function Values(ps: seq<string>, name: string): seq<string> {
    if ps == [] then []
    else (if Named(ps[0], name) then [ParamOf(ps[0]).value.value] else []) + Values(ps[1..], name)
  }

  function Given(v: Option<string>): seq<string> {
    match v
    case Some(x) => [x]
    case None => []
  }

  lemma OneName(piece: string)
    ensures !(Named(piece, "proto") && Named(piece, "host"))
  {
  }

  lemma AllGoodStep(ps: seq<string>)
    ensures AllGood(ps) <==> ps == [] || (ParamOf(ps[0]).Some? && AllGood(ps[1..]))
  {
  }

  lemma ValuesStep(ps: seq<string>, name: string)
    ensures ps == [] ==> Values(ps, name) == []
    ensures ps != [] && Named(ps[0], name) ==> Values(ps, name) == [ParamOf(ps[0]).value.value] + Values(ps[1..], name)
    ensures ps != [] && !Named(ps[0], name) ==> Values(ps, name) == Values(ps[1..], name)
  {
  }

  lemma {:induction false} WalkDecides(ps: seq<string>, proto: Option<string>, host: Option<string>, p: string,
                                       h: string)
    ensures var protos, hosts := Given(proto) + Values(ps, "proto"), Given(host) + Values(ps, "host");
            && (Walk(ps, proto, host) == Target(p, h) <==> AllGood(ps) && protos == [p] && hosts == [h])
            && (Walk(ps, proto, host) == Refused(Missing) <==>
                  AllGood(ps) && |protos| <= 1 && |hosts| <= 1 && (protos == [] || hosts == []))
  {
    hide ParamOf, Named, AllGood, Values;
    AllGoodStep(ps);
    ValuesStep(ps, "proto");
    ValuesStep(ps, "host");
    if ps == [] {
      assert Given(proto) + [] == Given(proto) && Given(host) + [] == Given(host);
    } else if ParamOf(ps[0]).Some? {
      var value := ParamOf(ps[0]).value.value;
      OneName(ps[0]);
      if Named(ps[0], "proto") {
        assert Given(proto) + Values(ps, "proto") == Given(proto) + [value] + Values(ps[1..], "proto");
        if proto.None? {
          WalkDecides(ps[1..], Some(value), host, p, h);
        }
      } else if Named(ps[0], "host") {
        assert Given(host) + Values(ps, "host") == Given(host) + [value] + Values(ps[1..], "host");
        if host.None? {
          WalkDecides(ps[1..], proto, Some(value), p, h);
        }
      } else {
        WalkDecides(ps[1..], proto, host, p, h);
      }
    }
  }

  // Trimming and splitting

  lemma {:induction false} TrimSnoc(s: string, c: char)
    requires Ows(c)
    ensures Trim(s + [c]) == Trim(s)
  {
    var t := s + [c];
    assert t[..|t| - 1] == s;
    if s != "" && Ows(s[0]) {
      assert t[1..] == s[1..] + [c];
      TrimSnoc(s[1..], c);
    } else if s == "" {
      assert t[1..] == "";
    }
  }

  /** The pieces of a string with one more character in front. */
  function Cons(a: char, ps: seq<string>): seq<string>
    requires ps != []
  {
    if a == ';' then [""] + ps else [[a] + ps[0]] + ps[1..]
  }

  /** The pieces of a string with one more character at the end. */
  function Snoc(ps: seq<string>, c: char): seq<string>
    requires ps != []
  {
    if c == ';' then ps + [""] else ps[..|ps| - 1] + [ps[|ps| - 1] + [c]]
  }

  lemma ConsSnoc(a: char, ps: seq<string>, c: char)
    requires ps != []
    ensures Cons(a, ps) != [] && Snoc(ps, c) != [] && Cons(a, Snoc(ps, c)) == Snoc(Cons(a, ps), c)
  {
    if a != ';' && c != ';' && |ps| == 1 {
      assert [a] + (ps[0] + [c]) == ([a] + ps[0]) + [c];
    }
  }

  lemma {:induction false} SplitSnoc(s: string, c: char)
    ensures Split(s + [c], ';') == Snoc(Split(s, ';'), c)
  {
    hide Snoc, Cons;
    if s == "" {
      SplitOne(c);
      assert s + [c] == [c];
    } else {
      SplitSnoc(s[1..], c);
      assert (s + [c])[1..] == s[1..] + [c];
      SplitCons(s);
      SplitCons(s + [c]);
      ConsSnoc(s[0], Split(s[1..], ';'), c);
    }
  }

  lemma SplitCons(s: string)
    requires s != ""
    ensures Split(s, ';') == Cons(s[0], Split(s[1..], ';'))
  {
  }

  lemma SplitOne(c: char)
    ensures Split([c], ';') == Snoc(Split("", ';'), c)
  {
    assert [c][1..] == "";
    assert [c] + "" == "" + [c];
  }

  /** Two lists of parameters that differ only by whitespace at their ends. */
  predicate SameTrimmed(ps: seq<string>, qs: seq<string>) {
    |ps| == |qs| && forall i :: 0 <= i < |ps| ==> Trim(ps[i]) == Trim(qs[i])
  }

  lemma FrontBlank(s: string)
    requires s != "" && Ows(s[0])
    ensures SameTrimmed(Split(s[1..], ';'), Split(s, ';'))
    ensures Trim(s) == Trim(s[1..])
  {
  }

  lemma SnocBlank(ps: seq<string>, c: char)
    requires ps != [] && Ows(c)
    ensures SameTrimmed(ps, Snoc(ps, c))
  {
    hide Trim;
    TrimSnoc(ps[|ps| - 1], c);
  }

  lemma BackBlank(s: string, c: char)
    requires Ows(c)
    ensures SameTrimmed(Split(s, ';'), Split(s + [c], ';'))
    ensures Trim(s + [c]) == Trim(s)
  {
    hide Split, Trim, Snoc, SameTrimmed;
    SplitSnoc(s, c);
    SnocBlank(Split(s, ';'), c);
    TrimSnoc(s, c);
  }

  lemma AlreadyTrimmed(s: string)
    requires s == "" || (!Ows(s[0]) && !Ows(s[|s| - 1]))
    ensures Trim(s) == s
  {
  }

  /** Trimming the whole value first does not matter to its trimmed parameters. */
  lemma {:induction false} TrimThenSplit(s: string)
    ensures SameTrimmed(Split(Trim(s), ';'), Split(s, ';'))
    decreases |s|
  {
    hide Split, Trim;
    if s != "" && Ows(s[0]) {
      TrimThenSplit(s[1..]);
      FrontBlank(s);
    } else if s != "" && Ows(s[|s| - 1]) {
      TrimThenSplit(s[..|s| - 1]);
      BackBlank(s[..|s| - 1], s[|s| - 1]);
      assert s[..|s| - 1] + [s[|s| - 1]] == s;
    } else {
      AlreadyTrimmed(s);
    }
  }

  lemma SameParam(p: string, q: string, name: string)
    requires Trim(p) == Trim(q)
    ensures ParamOf(p) == ParamOf(q) && Named(p, name) == Named(q, name)
  {
  }

  lemma {:induction false} SameTrimmedSame(ps: seq<string>, qs: seq<string>, name: string)
    requires SameTrimmed(ps, qs)
    ensures AllGood(ps) == AllGood(qs) && Values(ps, name) == Values(qs, name)
  {
    hide Trim, ParamOf, Named;
    if ps != [] {
      SameTrimmedSame(ps[1..], qs[1..], name);
      SameParam(ps[0], qs[0], name);
      assert ps == [ps[0]] + ps[1..] && qs == [qs[0]] + qs[1..];
    }
  }

  lemma {:induction false} TrimKeeps(s: string)
    ensures forall c :: c in Trim(s) ==> c in s
    ensures forall c :: c in s && !Ows(c) ==> c in Trim(s)
    decreases |s|
  {
    if s != "" && Ows(s[0]) {
      TrimKeeps(s[1..]);
      assert s == [s[0]] + s[1..];
    } else if s != "" && Ows(s[|s| - 1]) {
      TrimKeeps(s[..|s| - 1]);
      assert s == s[..|s| - 1] + [s[|s| - 1]];
    }
  }

  /** The parser succeeds exactly when the value is non-empty, within the limit, ASCII and unquoted, every
      parameter is well formed, and exactly one proto and one host occur; it then returns those two. With
      all parameters well formed and none repeated it reports what is missing. */
  lemma ParseDecides(raw: string, p: string, h: string)
    ensures var ps := Split(raw, ';');
            var sound := |raw| <= MAX_FORWARDING_VALUE_BYTES && Ascii(raw) && Unquoted(raw) && AllGood(ps);
            var protos, hosts := Values(ps, "proto"), Values(ps, "host");
            && (Parse(raw) == Target(p, h) <==> sound && protos == [p] && hosts == [h])
            && (Parse(raw) == Refused(Missing) <==>
               sound && |protos| <= 1 && |hosts| <= 1 && (protos == [] || hosts == []))
  {
    hide Split, ParamOf, Named, Walk, Values;
    var ps, qs := Split(raw, ';'), Split(Trim(raw), ';');
    TrimThenSplit(raw);
    SameTrimmedSame(qs, ps, "proto");
    SameTrimmedSame(qs, ps, "host");
    TrimKeeps(raw);
    WalkDecides(qs, None, None, p, h);
    assert Given(None) + Values(qs, "proto") == Values(qs, "proto");
    assert Given(None) + Values(qs, "host") == Values(qs, "host");
    if Trim(raw) == "" {
      BlankIsBad(raw);
    }
  }

  lemma BlankIsBad(raw: string)
    requires Trim(raw) == ""
    ensures !AllGood(Split(raw, ';'))
  {
    TrimThenSplit(raw);
    var ps := Split(raw, ';');
    assert Split("", ';') == [""];
    assert Trim(ps[0]) == Trim("") == "";
    assert ParamOf(ps[0]).None?;
  }

  // Order does not matter

  function Total(ps: seq<string>): nat {
    if ps == [] then 0 else |ps[0]| + Total(ps[1..])
  }

  lemma {:induction false} SplitLength(s: string)
    ensures |s| + 1 == Total(Split(s, ';')) + |Split(s, ';')|
  {
    if s != "" {
      SplitLength(s[1..]);
    }
  }

  lemma {:induction false} SplitChars(s: string, c: char)
    requires c != ';'
    ensures c in s <==> exists p :: p in Split(s, ';') && c in p
  {
    if s != "" {
      SplitChars(s[1..], c);
      var rest := Split(s[1..], ';');
      var ps := Split(s, ';');
      assert s == [s[0]] + s[1..] && rest == [rest[0]] + rest[1..];
      if s[0] != ';' {
        assert ps == [[s[0]] + rest[0]] + rest[1..];
        assert ps[0] in ps;
        forall p | p in rest && c in p ensures exists q :: q in ps && c in q {
          if p == rest[0] {
            assert c in ps[0];
          }
        }
      } else {
        forall p | p in rest ensures p in ps {
        }
      }
    }
  }

  lemma {:induction false} TotalAppended(ps: seq<string>, qs: seq<string>)
    ensures Total(ps + qs) == Total(ps) + Total(qs)
  {
    if ps == [] {
      assert ps + qs == qs;
    } else {
      TotalAppended(ps[1..], qs);
      assert (ps + qs)[1..] == ps[1..] + qs;
    }
  }

  lemma {:induction false} ValuesAppended(ps: seq<string>, qs: seq<string>, name: string)
    ensures Values(ps + qs, name) == Values(ps, name) + Values(qs, name)
  {
    hide Named, ParamOf, Values;
    ValuesStep(ps, name);
    if ps == [] {
      assert ps + qs == qs;
    } else {
      ValuesAppended(ps[1..], qs, name);
      ValuesStep(ps + qs, name);
      assert (ps + qs)[1..] == ps[1..] + qs;
    }
  }

  /** A parameter taken out of the list. */
  lemma TakeOut(ps: seq<string>, k: nat, name: string)
    requires k < |ps|
    ensures var rest := ps[..k] + ps[k + 1..];
            && Total(ps) == Total([ps[k]]) + Total(rest)
            && multiset(Values(ps, name)) == multiset(Values([ps[k]], name)) + multiset(Values(rest, name))
            && multiset(ps) == multiset([ps[k]]) + multiset(rest)
  {
    hide Values, Total;
    var a, x, b := ps[..k], [ps[k]], ps[k + 1..];
    assert ps == a + (x + b);
    ValuesAppended(a, x + b, name);
    TotalAppended(a, x + b);
    ValuesAppended(x, b, name);
    TotalAppended(x, b);
    ValuesAppended(a, b, name);
    TotalAppended(a, b);
  }

  lemma SameRest(x: multiset<string>, a: multiset<string>, b: multiset<string>)
    requires x + a == x + b
    ensures a == b
  {
    assert (x + a) - x == a && (x + b) - x == b;
  }

  /** Total length and the values of a name depend only on which parameters occur, not on their order. */
  lemma {:induction false} OrderFree(ps: seq<string>, qs: seq<string>, name: string)
    requires multiset(ps) == multiset(qs)
    ensures |ps| == |qs| && Total(ps) == Total(qs)
    ensures multiset(Values(ps, name)) == multiset(Values(qs, name))
  {
    hide Values, Total;
    assert |multiset(ps)| == |ps| && |multiset(qs)| == |qs|;
    if ps == [] {
      assert qs == [];
    } else {
      assert ps[0] in multiset(qs);
      var k: nat :| k < |qs| && qs[k] == ps[0];
      TakeOut(ps, 0, name);
      assert ps[..0] + ps[1..] == ps[1..];
      TakeOut(qs, k, name);
      SameRest(multiset([ps[0]]), multiset(ps[1..]), multiset(qs[..k] + qs[k + 1..]));
      OrderFree(ps[1..], qs[..k] + qs[k + 1..], name);
    }
  }

  lemma SameBag(a: seq<string>, b: seq<string>)
    requires multiset(a) == multiset(b)
    ensures |a| == |b| && (|a| <= 1 ==> a == b)
  {
    assert |multiset(a)| == |a| && |multiset(b)| == |b|;
    if |a| == 1 {
      assert a[0] in multiset(b);
    }
  }

  /** Reordering the parameters of a value changes neither whether parsing succeeds, nor the pair it returns,
      nor whether it reports missing metadata. */
  lemma OrderIrrelevant(raw: string, other: string)
    requires multiset(Split(raw, ';')) == multiset(Split(other, ';'))
    ensures Parse(raw) == Parse(other) || (Parse(raw).Refused? && Parse(other).Refused?)
    ensures Parse(raw) == Refused(Missing) <==> Parse(other) == Refused(Missing)
  {
    hide Parse, Split, Values, Total, AllGood, Ascii, Unquoted;
    var ps, qs := Split(raw, ';'), Split(other, ';');
    OrderFree(ps, qs, "proto");
    OrderFree(ps, qs, "host");
    SameBag(Values(ps, "proto"), Values(qs, "proto"));
    SameBag(Values(ps, "host"), Values(qs, "host"));
    SplitLength(raw);
    SplitLength(other);
    SameContents(raw, other);
    var a, b := Parse(raw), Parse(other);
    ParseDecides(raw, "", "");
    ParseDecides(other, "", "");
    if a.Target? {
      ParseDecides(raw, a.proto, a.host);
      ParseDecides(other, a.proto, a.host);
    } else if b.Target? {
      ParseDecides(raw, b.proto, b.host);
      ParseDecides(other, b.proto, b.host);
    }
  }

  lemma SameContents(raw: string, other: string)
    requires multiset(Split(raw, ';')) == multiset(Split(other, ';'))
    ensures Ascii(raw) == Ascii(other) && Unquoted(raw) == Unquoted(other)
    ensures AllGood(Split(raw, ';')) == AllGood(Split(other, ';'))
  {
    hide Split, ParamOf;
    var ps, qs := Split(raw, ';'), Split(other, ';');
    forall p ensures p in ps <==> p in qs {
      assert p in multiset(ps) <==> p in multiset(qs);
    }
    forall c: char | c != ';' ensures c in raw <==> c in other {
      SplitChars(raw, c);
      SplitChars(other, c);
    }
    assert AllGood(ps) <==> forall p :: p in ps ==> ParamOf(p).Some?;
    assert AllGood(qs) <==> forall p :: p in qs ==> ParamOf(p).Some?;
  }

  // ---- From the text ----

  /** One parameter as it is written: whitespace may stand around the name and around the value. */
  datatype Field = Field(before: string, name: string, between: string, after: string, value: string, end: string)

  function FieldText(f: Field): string {
    f.before + (f.name + f.between + "=" + (f.after + f.value)) + f.end
  }

  predicate Blank(s: string) {
    forall i :: 0 <= i < |s| ==> s[i] == ' ' || s[i] == '\t'
  }

  /** A name of token characters and a value of visible or non-ASCII characters. */
  predicate GoodField(f: Field) {
    && Blank(f.before) && Blank(f.between) && Blank(f.after) && Blank(f.end)
    && f.name != "" && (forall c :: c in f.name ==> '!' <= c <= '~' && c !in "\"(),/:;<=>?@[\\]{}")
    && f.value != "" && (forall c :: c in f.value ==> c > ' ' && c != '\U{7f}')
  }

  lemma {:induction false} TrimFront(a: string, t: string)
    requires Blank(a)
    ensures Trim(a + t) == Trim(t)
  {
    if a == "" {
      assert a + t == t;
    } else {
      TrimFront(a[1..], t);
      assert (a + t)[1..] == a[1..] + t && (a + t)[0] == a[0];
    }
  }

  lemma {:induction false} TrimBack(t: string, b: string)
    requires Blank(b)
    ensures Trim(t + b) == Trim(t)
    decreases |b|
  {
    if b == "" {
      assert t + b == t;
    } else {
      var init, c := b[..|b| - 1], b[|b| - 1];
      TrimBack(t, init);
      TrimSnoc(t + init, c);
      assert t + b == (t + init) + [c];
    }
  }

  /** Whitespace around a text that has none at its ends. */
  lemma TrimAround(a: string, t: string, b: string)
    requires Blank(a) && Blank(b) && (t == "" || (!Ows(t[0]) && !Ows(t[|t| - 1])))
    ensures Trim(a + t + b) == t
  {
    TrimBack(a + t, b);
    TrimFront(a, t);
    AlreadyTrimmed(t);
  }

  /** What trimming takes away is whitespace. */
  lemma {:induction false} TrimTakes(s: string) returns (a: string, b: string)
    ensures s == a + Trim(s) + b && Blank(a) && Blank(b)
    decreases |s|
  {
    if s != "" && Ows(s[0]) {
      var x, y := TrimTakes(s[1..]);
      a, b := [s[0]] + x, y;
      assert s == [s[0]] + s[1..];
    } else if s != "" && Ows(s[|s| - 1]) {
      var x, y := TrimTakes(s[..|s| - 1]);
      a, b := x, y + [s[|s| - 1]];
      assert s == s[..|s| - 1] + [s[|s| - 1]];
    } else {
      a, b := "", "";
    }
  }

  lemma NameHasNoEquals(f: Field)
    requires GoodField(f)
    ensures Excludes(f.name + f.between, {'='})
  {
    forall i | 0 <= i < |f.name + f.between| ensures (f.name + f.between)[i] != '=' {
      if i < |f.name| {
        assert f.name[i] in f.name;
      } else {
        assert (f.name + f.between)[i] == f.between[i - |f.name|];
      }
    }
  }

  lemma FieldEnds(f: Field)
    requires GoodField(f)
    ensures !Ows(f.name[0]) && !Ows(f.name[|f.name| - 1]) && !Ows(f.value[0]) && !Ows(f.value[|f.value| - 1])
    ensures forall c :: c in f.name ==> IsToken(c)
  {
    assert f.name[0] in f.name && f.name[|f.name| - 1] in f.name;
    assert f.value[0] in f.value && f.value[|f.value| - 1] in f.value;
    forall c | c in f.name ensures IsToken(c) {
      TokenClass(c);
    }
  }

  /** A parameter is read as the name before the first equals sign and the value after it. */
  lemma FieldReads(f: Field)
    requires GoodField(f)
    ensures ParamOf(FieldText(f)) == Some(Param(f.name, f.value))
  {
    hide Trim, IsToken, Blank;
    FieldEnds(f);
    var head, tail := f.name + f.between, f.after + f.value;
    var t := f.name + f.between + "=" + (f.after + f.value);
    assert t == head + ("=" + tail);
    assert t[0] == f.name[0] && t[|t| - 1] == f.value[|f.value| - 1];
    TrimAround(f.before, t, f.end);
    NameHasNoEquals(f);
    FindFirstIs(t, {'='}, |head|);
    assert t[..|head|] == head && t[|head| + 1..] == tail;
    NameAlone(f);
  }

  lemma NameAlone(f: Field)
    requires GoodField(f)
    ensures Trim(f.name + f.between) == f.name && Trim(f.after + f.value) == f.value
  {
    hide Trim;
    FieldEnds(f);
    BlankNothing();
    TrimAround("", f.name, f.between);
    assert "" + f.name + f.between == f.name + f.between;
    TrimAround(f.after, f.value, "");
    assert f.after + f.value + "" == f.after + f.value;
  }

  lemma BlankNothing()
    ensures Blank("")
  {
  }

  /** Every well-formed parameter is written that way. */
  lemma FieldOf(piece: string) returns (f: Field)
    requires ParamOf(piece).Some?
    ensures GoodField(f) && piece == FieldText(f) && ParamOf(piece).value == Param(f.name, f.value)
  {
    hide Trim, IsToken;
    var t := Trim(piece);
    var k := FindFirst(t, {'='});
    var name, value := Trim(t[..k]), Trim(t[k + 1..]);
    var before, end := TrimTakes(piece);
    var front, between := TrimTakes(t[..k]);
    var after, back := TrimTakes(t[k + 1..]);
    f := Field(before + front, name, between, after, value, back + end);
    assert t == t[..k] + "=" + t[k + 1..];
    FieldJoins(piece, before, front, name, between, after, value, back, end);
    forall c | c in name ensures '!' <= c <= '~' && c !in "\"(),/:;<=>?@[\\]{}" {
      TokenClass(c);
    }
  }

  lemma FieldJoins(piece: string, before: string, front: string, name: string, between: string, after: string,
                   value: string, back: string, end: string)
    requires piece == before + ((front + name + between) + "=" + (after + value + back)) + end
    ensures piece == FieldText(Field(before + front, name, between, after, value, back + end))
  {
  }

  /** Exactly the well-formed texts are read, each as its name and value. */
  lemma ParamExactly(piece: string, name: string, value: string)
    ensures ParamOf(piece) == Some(Param(name, value)) <==>
            exists f :: GoodField(f) && piece == FieldText(f) && f.name == name && f.value == value
  {
    hide ParamOf, GoodField, FieldText;
    if ParamOf(piece).Some? {
      var f := FieldOf(piece);
    }
    forall f | GoodField(f) && piece == FieldText(f) ensures ParamOf(piece) == Some(Param(f.name, f.value)) {
      FieldReads(f);
    }
  }

  /** Parameters written one after another with semicolons between them. */
  function Spell(fs: seq<Field>): string
    requires fs != []
  {
    if |fs| == 1 then FieldText(fs[0]) else FieldText(fs[0]) + ";" + Spell(fs[1..])
  }

  function Texts(fs: seq<Field>): (r: seq<string>)
    ensures |r| == |fs|
  {
    seq(|fs|, i requires 0 <= i < |fs| => FieldText(fs[i]))
  }

  lemma {:induction false} SplitSpell(fs: seq<Field>)
    requires fs != [] && forall i :: 0 <= i < |fs| ==> Excludes(FieldText(fs[i]), {';'})
    ensures Split(Spell(fs), ';') == Texts(fs)
  {
    hide FieldText, Split;
    var s, head := Spell(fs), FieldText(fs[0]);
    SplitFirst(s, ';');
    if |fs| == 1 {
      FindFirstIs(s, {';'}, |s|);
      assert s[..|s|] == head;
    } else {
      SplitSpell(fs[1..]);
      FindFirstIs(s, {';'}, |head|);
      assert s[..|head|] == head && s[|head| + 1..] == Spell(fs[1..]);
      assert Texts(fs) == [head] + Texts(fs[1..]);
    }
  }

  /** The values written for a name, in any case of its letters. */
  function ValuesWritten(fs: seq<Field>, name: string): seq<string> {
    if fs == [] then []
    else (if Lower(fs[0].name) == name then [fs[0].value] else []) + ValuesWritten(fs[1..], name)
  }

  lemma {:induction false} TextsRead(fs: seq<Field>, name: string)
    requires forall i :: 0 <= i < |fs| ==> GoodField(fs[i])
    ensures AllGood(Texts(fs)) && Values(Texts(fs), name) == ValuesWritten(fs, name)
  {
    hide ParamOf, FieldText, GoodField, Lower;
    if fs != [] {
      TextsRead(fs[1..], name);
      FieldReads(fs[0]);
      assert Texts(fs) == [FieldText(fs[0])] + Texts(fs[1..]);
      assert Texts(fs)[1..] == Texts(fs[1..]);
      AllGoodStep(Texts(fs));
    }
  }

  /** Parsing written parameters: the values written for proto and host come back exactly when there is one of each. */
  lemma ParseWritten(fs: seq<Field>, p: string, h: string)
    requires fs != [] && forall i :: 0 <= i < |fs| ==> GoodField(fs[i]) && Excludes(FieldText(fs[i]), {';'})
    requires |Spell(fs)| <= 1024 && forall c :: c in Spell(fs) ==> c < '\U{80}' && c !in ",\"\\"
    ensures Parse(Spell(fs)) == Target(p, h) <==> ValuesWritten(fs, "proto") == [p] && ValuesWritten(fs, "host") == [h]
  {
    hide Parse, Spell, GoodField, FieldText, Values, ValuesWritten, AllGood, Split;
    SplitSpell(fs);
    TextsRead(fs, "proto");
    TextsRead(fs, "host");
    ParseDecides(Spell(fs), p, h);
  }

  // ---- Each refusal ----

  /** Nothing wrong among these parameters so far. */
  predicate FineSoFar(ps: seq<string>, proto: Option<string>, host: Option<string>) {
    AllGood(ps) && |Given(proto) + Values(ps, "proto")| <= 1 && |Given(host) + Values(ps, "host")| <= 1
  }

  /** The first parameter that is wrong decides: malformed is invalid, a second proto or host is ambiguous. */
  lemma {:induction false} WalkRefuses(ps: seq<string>, i: nat, proto: Option<string>, host: Option<string>)
    requires i < |ps| && FineSoFar(ps[..i], proto, host)
    ensures ParamOf(ps[i]).None? ==> Walk(ps, proto, host) == Refused(Invalid)
    ensures ParamOf(ps[i]).Some? && !FineSoFar(ps[..i + 1], proto, host) ==> Walk(ps, proto, host) == Refused(Ambiguous)
    decreases i
  {
    hide ParamOf, Named, AllGood, Values;
    var head, value := ps[0], if ParamOf(ps[0]).Some? then ParamOf(ps[0]).value.value else "";
    OneName(head);
    FineStep(ps[..i + 1], proto, host);
    if i > 0 {
      assert ps[..i][0] == head && ps[..i][1..] == ps[1..][..i - 1];
      assert ps[..i + 1][0] == head && ps[..i + 1][1..] == ps[1..][..i];
      FineStep(ps[..i], proto, host);
      var p := if Named(head, "proto") then Some(value) else proto;
      var h := if Named(head, "host") then Some(value) else host;
      WalkRefuses(ps[1..], i - 1, p, h);
    } else {
      assert ps[..1] == [head] && [head][1..] == [];
      NothingWrong(if Named(head, "proto") then Some(value) else proto, if Named(head, "host") then Some(value)
          else host);
    }
  }

  lemma NothingWrong(proto: Option<string>, host: Option<string>)
    ensures FineSoFar([], proto, host)
  {
  }

  /** The first of some parameters. */
  lemma FineStep(ps: seq<string>, proto: Option<string>, host: Option<string>)
    requires ps != []
    ensures var head := ps[0];
            FineSoFar(ps, proto, host) <==>
              && ParamOf(head).Some?
              && (Named(head, "proto") ==> proto.None?) && (Named(head, "host") ==> host.None?)
              && var value := ParamOf(head).value.value;
                 FineSoFar(ps[1..], if Named(head, "proto") then Some(value) else proto,
                           if Named(head, "host") then Some(value) else host)
  {
    hide ParamOf, Named, AllGood, Values;
    AllGoodStep(ps);
    ValuesStep(ps, "proto");
    ValuesStep(ps, "host");
  }

  /** A value that is empty, longer than 1024 bytes, not ASCII or blank is invalid; otherwise one with a comma, a quote
      or a backslash is ambiguous; otherwise the first wrong parameter decides. */
  lemma RefusalReasons(raw: string)
    ensures raw == "" || |raw| > 1024 || (exists c :: c in raw && c >= '\U{80}') || Trim(raw) == "" ==>
              Parse(raw) == Refused(Invalid)
    ensures 1 <= |raw| <= 1024 && (forall c :: c in raw ==> c < '\U{80}') && (exists c :: c in raw && c in ",\"\\") ==>
              Parse(raw) == Refused(Ambiguous)
    ensures 1 <= |raw| <= 1024 && (forall c :: c in raw ==> c < '\U{80}' && c !in ",\"\\") && Trim(raw) != "" ==>
              Parse(raw) == Walk(Split(Trim(raw), ';'), None, None)
  {
    hide Walk, Split, Trim;
    TrimKeeps(raw);
  }
}
