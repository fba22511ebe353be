/** Dot-segment removal, section 5.2.4 of RFC 3986
    (crates/keylix-dpop/src/request.rs, lines 304 to 347). */
module DotSegments {
  import opened Text
  import opened PercentEncoding

  /** Each segment preceded by a slash. */
  function Join(segs: seq<string>): string {
    if segs == [] then "" else Join(segs[..|segs| - 1]) + "/" + segs[|segs| - 1]
  }

  function Pop(stack: seq<string>): seq<string> {
    if stack == [] then [] else stack[..|stack| - 1]
  }

  /** The segment stack: "." vanishes, ".." pops, and either one at the end leaves an empty
      last segment, that is, a trailing slash. */
  function Reduce(segs: seq<string>, stack: seq<string>): seq<string>
    decreases |segs|
  {
    if segs == [] then stack
    else
      var last := |segs| == 1;
      if segs[0] == "." then (if last then stack + [""] else Reduce(segs[1..], stack))
      else if segs[0] == ".." then (if last then Pop(stack) + [""] else Reduce(segs[1..], Pop(stack)))
      else Reduce(segs[1..], stack + [segs[0]])
  }

  /** Dot-segment removal of an absolute path, by segments. */
  function RemoveDots(path: string): string
    requires HasPrefix(path, "/")
  {
    Join(Reduce(Split(path[1..], '/'), []))
  }

  predicate Segments(segs: seq<string>) {
    forall i :: 0 <= i < |segs| ==> Excludes(segs[i], {'/'})
  }

  predicate DotFree(segs: seq<string>) {
    "." !in segs && ".." !in segs
  }

  lemma JoinSnoc(segs: seq<string>, a: string)
    ensures Join(segs + [a]) == Join(segs) + "/" + a && Join([]) == ""
  {
    assert (segs + [a])[..|segs|] == segs;
  }

  lemma {:induction false} JoinCons(a: string, segs: seq<string>)
    ensures Join([a] + segs) == "/" + a + Join(segs)
  {
    hide Join;
    if segs == [] {
      JoinSnoc([], a);
      assert [a] + segs == [] + [a] && "/" + a + "" == "" + "/" + a;
    } else {
      var init, last := segs[..|segs| - 1], segs[|segs| - 1];
      JoinCons(a, init);
      assert segs == init + [last] && [a] + segs == ([a] + init) + [last];
      JoinSnoc(init, last);
      JoinSnoc([a] + init, last);
      ConcatAssociative("/" + a, Join(init), "/");
      ConcatAssociative("/" + a, Join(init) + "/", last);
    }
  }

  /** Joining what was split gives the path back. */
  lemma {:induction false} JoinSplit(s: string)
    ensures Join(Split(s, '/')) == "/" + s
  {
    hide Split;
    SplitFirst(s, '/');
    var k := FindFirst(s, {'/'});
    if k < |s| {
      JoinSplit(s[k + 1..]);
      JoinCons(s[..k], Split(s[k + 1..], '/'));
      assert s == s[..k] + "/" + s[k + 1..];
    } else {
      assert s[..k] == s;
      JoinCons(s, []);
    }
  }

  /** Splitting what was joined gives the segments back. */
  lemma {:induction false} SplitJoin(segs: seq<string>)
    requires segs != [] && Segments(segs)
    ensures HasPrefix(Join(segs), "/") && Split(Join(segs)[1..], '/') == segs
  {
    hide Split;
    var a, rest := segs[0], segs[1..];
    assert segs == [a] + rest;
    JoinCons(a, rest);
    var s := a + Join(rest);
    assert Join(segs)[1..] == s;
    SplitFirst(s, '/');
    if rest == [] {
      assert s == a;
      FindFirstIs(s, {'/'}, |a|);
    } else {
      SplitJoin(rest);
      assert s[|a|] == Join(rest)[0];
      FindFirstIs(s, {'/'}, |a|);
      assert s[..|a|] == a && s[|a| + 1..] == Join(rest)[1..];
    }
  }

  lemma {:induction false} ReduceShape(segs: seq<string>, stack: seq<string>)
    requires Segments(segs) && Segments(stack) && DotFree(stack)
    ensures var r := Reduce(segs, stack); Segments(r) && DotFree(r) && (segs != [] ==> r != [])
    decreases |segs|
  {
    if segs != [] {
      if segs[0] == "." {
        ReduceShape(segs[1..], stack);
      } else if segs[0] == ".." {
        ReduceShape(segs[1..], Pop(stack));
      } else {
        ReduceShape(segs[1..], stack + [segs[0]]);
        ReduceNonEmpty(segs[1..], stack + [segs[0]]);
      }
    }
  }

  lemma {:induction false} ReduceNonEmpty(segs: seq<string>, stack: seq<string>)
    requires segs != [] || stack != []
    ensures Reduce(segs, stack) != []
    decreases |segs|
  {
    if |segs| > 1 || (segs != [] && segs[0] != "." && segs[0] != "..") {
      ReduceNonEmpty(segs[1..],
                     if segs[0] == "." then stack else if segs[0] == ".." then Pop(stack) else stack + [segs[0]]);
    }
  }

  lemma {:induction false} ReduceFixed(segs: seq<string>, stack: seq<string>)
    requires DotFree(segs)
    ensures Reduce(segs, stack) == stack + segs
    decreases |segs|
  {
    if segs != [] {
      ReduceFixed(segs[1..], stack + [segs[0]]);
      assert stack + [segs[0]] + segs[1..] == stack + segs;
    }
  }

  lemma {:induction false} ReduceLength(segs: seq<string>, stack: seq<string>)
    ensures |Join(Reduce(segs, stack))| <= |Join(stack)| + |Join(segs)|
    decreases |segs|
  {
    if segs != [] {
      assert segs == [segs[0]] + segs[1..];
      JoinCons(segs[0], segs[1..]);
      assert (stack + [segs[0]])[..|stack|] == stack;
      assert (stack + [""])[..|stack|] == stack;
      assert (Pop(stack) + [""])[..|Pop(stack)|] == Pop(stack);
      ReduceLength(segs[1..],
                   if segs[0] == "." then stack else if segs[0] == ".." then Pop(stack) else stack + [segs[0]]);
    }
  }

  /** Every segment left over was a segment before, or is the empty last one. */
  lemma {:induction false} ReduceMembers(segs: seq<string>, stack: seq<string>)
    ensures forall x :: x in Reduce(segs, stack) ==> x in segs || x in stack || x == ""
    decreases |segs|
  {
    if segs != [] {
      ReduceMembers(segs[1..],
                    if segs[0] == "." then stack else if segs[0] == ".." then Pop(stack) else stack + [segs[0]]);
    }
  }

  lemma {:induction false} SplitMembers(s: string, x: string, c: char)
    requires x in Split(s, '/') && c in x
    ensures c in s
  {
    SplitFirst(s, '/');
    var k := FindFirst(s, {'/'});
    if x == s[..k] {
      assert c in s[..k];
    } else {
      SplitMembers(s[k + 1..], x, c);
    }
  }

  lemma {:induction false} JoinMembers(segs: seq<string>, c: char)
    requires c in Join(segs) && c != '/'
    ensures exists x :: x in segs && c in x
  {
    var n := |segs| - 1;
    if c !in segs[n] {
      JoinMembers(segs[..n], c);
    }
  }

  /** The properties the caller relies on: an absolute, dot-free path, not longer than the given
      one, over its characters. */
  lemma RemoveDotsShape(path: string)
    requires HasPrefix(path, "/")
    ensures var r := RemoveDots(path);
            && HasPrefix(r, "/")
            && DotFree(Split(r[1..], '/'))
            && |r| <= |path|
            && forall c :: c in r ==> c in path
  {
    var segs := Split(path[1..], '/');
    var red := Reduce(segs, []);
    ReduceShape(segs, []);
    SplitJoin(red);
    ReduceLength(segs, []);
    JoinSplit(path[1..]);
    assert path == "/" + path[1..];
    forall c | c in RemoveDots(path)
      ensures c in path
    {
      if c != '/' {
        JoinMembers(red, c);
        var x :| x in red && c in x;
        ReduceMembers(segs, []);
        SplitMembers(path[1..], x, c);
      }
    }
  }

  /** A path without dot segments is left alone. */
  lemma RemoveDotsFixed(path: string)
    requires HasPrefix(path, "/") && DotFree(Split(path[1..], '/'))
    ensures RemoveDots(path) == path
  {
    var segs := Split(path[1..], '/');
    ReduceFixed(segs, []);
    assert [] + segs == segs;
    JoinSplit(path[1..]);
  }

  lemma RemoveDotsIdempotent(path: string)
    requires HasPrefix(path, "/")
    ensures HasPrefix(RemoveDots(path), "/") && RemoveDots(RemoveDots(path)) == RemoveDots(path)
  {
    RemoveDotsShape(path);
    RemoveDotsFixed(RemoveDots(path));
  }

  // ---- The loop ----

  /** `r` is `output` cut at its last slash, or empty when there is none. */
  predicate CutAtLastSlash(output: string, r: string) {
    if '/' in output then
      && |r| < |output| && output[..|r|] == r && output[|r|] == '/'
      && forall i :: |r| < i < |output| ==> output[i] != '/'
    else r == ""
  }

  /** `remove_last_segment`. */
  method RemoveLastSegment(output: string) returns (r: string)
    ensures CutAtLastSlash(output, r)
  {
    var position := |output|;
    while position > 0
      invariant 0 <= position <= |output|
      invariant forall i :: position <= i < |output| ==> output[i] != '/'
    {
      position := position - 1;
      if output[position] == '/' {
        return output[..position];
      }
    }
    return "";
  }

  lemma PopJoined(stack: seq<string>, r: string)
    requires Segments(stack) && CutAtLastSlash(Join(stack), r)
    ensures r == Join(Pop(stack))
  {
    if stack != [] {
      var output, base, top := Join(stack), Join(Pop(stack)), stack[|stack| - 1];
      assert output[|base|] == '/';
      assert forall i :: |base| < i < |output| ==> output[i] == top[i - |base| - 1];
      assert output[..|base|] == base;
    }
  }

  /** `remove_dot_segments`: drains `input` from the front and grows `output`. It terminates on
      every string, and on an absolute path it computes the segment stack. */
  method RemoveDotSegments(path: string) returns (output: string)
    ensures HasPrefix(path, "/") ==> output == RemoveDots(path)
  {
    var input := path;
    output := "";
    ghost var stack: seq<string> := [];
    ghost var absolute := HasPrefix(path, "/");
    while input != ""
      invariant absolute ==> Draining(path, input, output, stack)
      decreases |input|
    {
      if HasPrefix(input, "../") {
        input := input[3..];
      } else if HasPrefix(input, "./") {
        input := input[2..];
      } else if HasPrefix(input, "/./") {
        if absolute { DropDot(path, input, output, stack, "/" + input[3..]); }
        input := "/" + input[3..];
      } else if input == "/." {
        if absolute { DropDot(path, input, output, stack, "/"); }
        input := "/";
      } else if HasPrefix(input, "/../") {
        var shorter := RemoveLastSegment(output);
        if absolute {
          DropParent(path, input, output, stack, "/" + input[4..], shorter);
          stack := Pop(stack);
        }
        input := "/" + input[4..];
        output := shorter;
      } else if input == "/.." {
        var shorter := RemoveLastSegment(output);
        if absolute {
          DropParent(path, input, output, stack, "/", shorter);
          stack := Pop(stack);
        }
        input := "/";
        output := shorter;
      } else if input == "." || input == ".." {
        input := "";
      } else {
        var segmentEnd := if input[0] == '/' then 1 + FindFirst(input[1..], {'/'}) else FindFirst(input, {'/'});
        if absolute {
          Push(path, input, output, stack, segmentEnd);
          stack := stack + [input[1..segmentEnd]];
        }
        output := output + input[..segmentEnd];
        input := input[segmentEnd..];
      }
    }
  }

  /** The state of the loop on an absolute path. */
  ghost predicate Draining(path: string, input: string, output: string, stack: seq<string>)
    requires HasPrefix(path, "/")
  {
    && Segments(stack) && output == Join(stack)
    && (input == "" || HasPrefix(input, "/"))
    && RemoveDots(path) == Join(Rest(input, stack))
  }

  lemma DropDot(path: string, input: string, output: string, stack: seq<string>, rest: string)
    requires HasPrefix(path, "/") && Draining(path, input, output, stack)
    requires (input == "/." && rest == "/") || (HasPrefix(input, "/./") && rest == "/" + input[3..])
    ensures Draining(path, rest, output, stack)
  {
    assert input[1..2] == ".";
    RestStep(input, 1, stack);
  }

  lemma DropParent(path: string, input: string, output: string, stack: seq<string>, rest: string, shorter: string)
    requires HasPrefix(path, "/") && Draining(path, input, output, stack)
    requires (input == "/.." && rest == "/") || (HasPrefix(input, "/../") && rest == "/" + input[4..])
    requires CutAtLastSlash(output, shorter)
    ensures Draining(path, rest, shorter, Pop(stack))
  {
    assert input[1..3] == "..";
    RestStep(input, 2, stack);
    PopJoined(stack, shorter);
  }

  lemma HeadPiece(input: string, end: nat)
    requires HasPrefix(input, "/") && end == 1 + FindFirst(input[1..], {'/'})
    requires !HasPrefix(input, "/./") && input != "/." && !HasPrefix(input, "/../") && input != "/.."
    ensures 1 <= end <= |input| && input[0] == '/' && (end < |input| ==> input[end] == '/')
    ensures var seg := input[1..end]; input[..end] == "/" + seg && Excludes(seg, {'/'}) && seg != "." && seg != ".."
    ensures input[end..] == "" || HasPrefix(input[end..], "/")
  {
    var seg := input[1..end];
    assert input[0] == input[..1][0];
    assert input == "/" + seg + input[end..];
    assert end < |input| ==> input[..end + 1] == "/" + seg + "/";
    assert "/" + "." + "/" == "/./" && "/" + ".." + "/" == "/../" && "/" + "." == "/." && "/" + ".." == "/..";
    assert forall i :: 0 <= i < |seg| ==> seg[i] == input[1..][i];
  }

  lemma Push(path: string, input: string, output: string, stack: seq<string>, end: nat)
    requires HasPrefix(path, "/") && Draining(path, input, output, stack) && input != ""
    requires end == 1 + FindFirst(input[1..], {'/'})
    requires !HasPrefix(input, "/./") && input != "/." && !HasPrefix(input, "/../") && input != "/.."
    ensures Draining(path, input[end..], output + input[..end], stack + [input[1..end]])
  {
    hide Rest, RemoveDots, Join, Excludes, FindFirst;
    HeadPiece(input, end);
    var seg := input[1..end];
    RestStep(input, end - 1, stack);
    JoinSnoc(stack, seg);
    ConcatAssociative(Join(stack), "/", seg);
  }

  /** What is still to come when `input` is left and `stack` is the output so far. */
  ghost function Rest(input: string, stack: seq<string>): seq<string>
    requires input == "" || HasPrefix(input, "/")
  {
    if input == "" then stack else Reduce(Split(input[1..], '/'), stack)
  }

  /** The first segment of an absolute path of `k` characters followed by a slash or the end. */
  lemma HeadSegment(input: string, k: nat)
    requires |input| >= 1 + k && input[0] == '/'
    requires Excludes(input[1..1 + k], {'/'}) && (|input| > 1 + k ==> input[1 + k] == '/')
    ensures Split(input[1..], '/') ==
            [input[1..1 + k]] + (if |input| > 1 + k then Split(input[2 + k..], '/') else [])
  {
    var s := input[1..];
    assert forall i :: 0 <= i < k ==> s[i] == input[1..1 + k][i];
    FindFirstIs(s, {'/'}, k);
    SplitFirst(s, '/');
    assert s[..k] == input[1..1 + k];
    if |input| > 1 + k {
      assert s[k + 1..] == input[2 + k..];
    }
  }

  lemma SlashLeft(stack: seq<string>)
    ensures Rest("/", stack) == stack + [""]
  {
    assert "/"[1..] == "";
    assert [""][1..] == [];
  }

  /** How one segment at the head of the input moves on. */
  lemma RestStep(input: string, k: nat, stack: seq<string>)
    requires |input| >= 1 + k && input[0] == '/'
    requires Excludes(input[1..1 + k], {'/'}) && (|input| > 1 + k ==> input[1 + k] == '/')
    ensures var seg, after := input[1..1 + k], input[1 + k..];
            Rest(input, stack) ==
            if seg == "." then Rest(if after == "" then "/" else after, stack)
            else if seg == ".." then Rest(if after == "" then "/" else after, Pop(stack))
            else Rest(after, stack + [seg])
    ensures |input| > 1 + k ==> input[1 + k..] == "/" + input[2 + k..]
  {
    var seg, after := input[1..1 + k], input[1 + k..];
    HeadSegment(input, k);
    var segs := Split(input[1..], '/');
    SlashLeft(stack);
    SlashLeft(Pop(stack));
    if after == "" {
      assert segs == [seg] && segs[1..] == [];
      assert Reduce(segs[1..], stack + [seg]) == stack + [seg];
      assert Rest(after, stack + [seg]) == stack + [seg];
    } else {
      assert after[1..] == input[2 + k..];
      assert segs[1..] == Split(after[1..], '/');
    }
  }

  // ---- Percent-canonical paths stay canonical ----

  predicate Canonical(s: string) {
    Normalize(s) == Some(s)
  }

  lemma RenderStep(ts: seq<Token>)
    ensures Render(ts) == if ts == [] then "" else RenderToken(ts[0]) + Render(ts[1..])
  {
  }

  lemma {:induction false} RenderConcat(ts: seq<Token>, us: seq<Token>)
    ensures Render(ts + us) == Render(ts) + Render(us)
  {
    hide RenderToken, Render;
    RenderStep(ts);
    if ts == [] {
      assert ts + us == us && "" + Render(us) == Render(us);
    } else {
      RenderConcat(ts[1..], us);
      RenderStep(ts + us);
      assert (ts + us)[1..] == ts[1..] + us;
      ConcatAssociative(RenderToken(ts[0]), Render(ts[1..]), Render(us));
    }
  }

  /** A slash never lies inside an escape, so reading distributes over it. */
  lemma {:induction false} TokensAtSlash(a: string, b: string)
    ensures Tokens(a + "/" + b) ==
            if Tokens(a).Some? && Tokens(b).Some? then Some(Tokens(a).value + [Lit('/')] + Tokens(b).value) else None
  {
    var s := a + "/" + b;
    if a == "" {
      assert s[1..] == b;
      assert [] + [Lit('/')] == [Lit('/')];
    } else if a[0] != '%' {
      TokensAtSlash(a[1..], b);
      assert s[1..] == a[1..] + "/" + b;
      if Tokens(a).Some? && Tokens(b).Some? {
        assert Tokens(a).value + [Lit('/')] + Tokens(b).value ==
            [Lit(a[0])] + (Tokens(a[1..]).value + [Lit('/')] + Tokens(b).value);
      }
    } else if |a| >= 3 {
      TokensAtSlash(a[3..], b);
      assert s[3..] == a[3..] + "/" + b;
      assert Escape(s) == Escape(a);
      if Tokens(a).Some? && Tokens(b).Some? {
        assert Tokens(a).value + [Lit('/')] + Tokens(b).value ==
               [Esc(Escape(a).value)] + (Tokens(a[3..]).value + [Lit('/')] + Tokens(b).value);
      }
    } else {
      assert s[|a|] == '/';
      assert Escape(s).None?;
    }
  }

  lemma NormalizeAtSlash(a: string, b: string)
    ensures Normalize(a + "/" + b) ==
            if Normalize(a).Some? && Normalize(b).Some? then Some(Normalize(a).value + "/" + Normalize(b).value)
            else None
  {
    TokensAtSlash(a, b);
    if Tokens(a).Some? && Tokens(b).Some? {
      var ts, us := Tokens(a).value, Tokens(b).value;
      assert CanonAll(ts + [Lit('/')] + us) == CanonAll(ts) + [Lit('/')] + CanonAll(us);
      RenderConcat(CanonAll(ts) + [Lit('/')], CanonAll(us));
      RenderConcat(CanonAll(ts), [Lit('/')]);
      assert Render([Lit('/')]) == "/" by { assert Render([]) == ""; }
    }
  }

  lemma CanonicalAtSlash(a: string, b: string)
    ensures Canonical(a + "/" + b) <==> Canonical(a) && Canonical(b)
  {
    NormalizeAtSlash(a, b);
    if Canonical(a + "/" + b) {
      NormalizeBounds(a);
      NormalizeBounds(b);
      var x, y := Normalize(a).value, Normalize(b).value;
      assert (x + "/" + y)[..|x|] == x && (x + "/" + y)[|x| + 1..] == y;
      assert (a + "/" + b)[..|a|] == a && (a + "/" + b)[|a| + 1..] == b;
    }
  }

  lemma {:induction false} CanonicalSegments(s: string)
    requires Canonical(s)
    ensures forall x :: x in Split(s, '/') ==> Canonical(x)
  {
    SplitFirst(s, '/');
    var k := FindFirst(s, {'/'});
    if k < |s| {
      assert s == s[..k] + "/" + s[k + 1..];
      CanonicalAtSlash(s[..k], s[k + 1..]);
      CanonicalSegments(s[k + 1..]);
    } else {
      assert s[..k] == s;
    }
  }

  lemma EmptyCanonical()
    ensures Canonical("")
  {
    assert CanonAll([]) == [];
  }

  lemma {:induction false} CanonicalJoin(segs: seq<string>)
    requires forall x :: x in segs ==> Canonical(x)
    ensures Canonical(Join(segs))
  {
    if segs == [] {
      EmptyCanonical();
    } else {
      var n := |segs| - 1;
      CanonicalJoin(segs[..n]);
      CanonicalAtSlash(Join(segs[..n]), segs[n]);
    }
  }

  lemma RemoveDotsCanonical(path: string)
    requires HasPrefix(path, "/") && Canonical(path)
    ensures Canonical(RemoveDots(path))
  {
    var segs := Split(path[1..], '/');
    assert path == "" + "/" + path[1..];
    CanonicalAtSlash("", path[1..]);
    CanonicalSegments(path[1..]);
    EmptyCanonical();
    ReduceMembers(segs, []);
    CanonicalJoin(Reduce(segs, []));
  }
}
