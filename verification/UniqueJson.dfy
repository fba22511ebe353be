/** Rejection of duplicate JSON members at every depth, and what it buys: no two parsers can disagree
    about a member of an accepted document (crates/keylix-dpop/src/proof.rs, lines 95 to 106 and 595 to 705). */
module UniqueJson {
  import opened Text

  datatype Member = Member(name: string, value: Json)

  /** A parsed document that keeps every member it read, in order. */
  datatype Json =
    | Null
    | Bool(bit: bool)
    | Number(numeral: string)
    | Text(text: string)
    | List(items: seq<Json>)
    | Object(members: seq<Member>)

  predicate DistinctNames(ms: seq<Member>) {
    forall i, k :: 0 <= i < k < |ms| ==> ms[i].name != ms[k].name
  }

  /** No object anywhere in the document has two members of one name. */
  predicate NoDuplicates(j: Json) {
    match j
    case List(items) => forall i :: 0 <= i < |items| ==> NoDuplicates(items[i])
    case Object(ms) => DistinctNames(ms) && forall i :: 0 <= i < |ms| ==> NoDuplicates(ms[i].value)
    case _ => true
  }

  /** `UniqueJsonVisitor`: one pass in document order that stops at the first repeated name. */
  method CheckUnique(j: Json) returns (ok: bool)
    ensures ok == NoDuplicates(j)
    decreases j
  {
    match j
    case List(items) =>
      var i := 0;
      while i < |items|
        invariant i <= |items| && forall k :: 0 <= k < i ==> NoDuplicates(items[k])
      {
        ok := CheckUnique(items[i]);
        if !ok {
          return;
        }
        i := i + 1;
      }
      return true;
    case Object(ms) =>
      var seen: set<string> := {};
      var i := 0;
      while i < |ms|
        invariant i <= |ms| && DistinctNames(ms[..i])
        invariant forall n :: n in seen <==> exists k :: 0 <= k < i && ms[k].name == n
        invariant forall k :: 0 <= k < i ==> NoDuplicates(ms[k].value)
      {
        if ms[i].name in seen {
          return false;
        }
        seen := seen + {ms[i].name};
        ok := CheckUnique(ms[i].value);
        if !ok {
          return;
        }
        i := i + 1;
      }
      assert ms[..i] == ms;
      return true;
    case _ => return true;
  }

  // Paths into a document

  datatype Hop = Name(name: string) | Index(index: nat)

  type Path = seq<Hop>

  /** Every value a path can lead to, in document order: one for each choice among repeated members. */
  function Nodes(j: Json, path: Path): seq<Json>
    decreases |path|, 1, 0
  {
    if path == [] then [j]
    else match (j, path[0])
      case (List(items), Index(i)) => if i < |items| then Nodes(items[i], path[1..]) else []
      case (Object(ms), Name(n)) => Gather(ms, n, path[1..])
      case _ => []
  }

  function Gather(ms: seq<Member>, n: string, rest: Path): seq<Json>
    decreases |rest| + 1, 0, |ms|
  {
    if ms == [] then []
    else (if ms[0].name == n then Nodes(ms[0].value, rest) else []) + Gather(ms[1..], n, rest)
  }

  /** How a parser resolves a repeated member. */
  datatype Policy = FirstWins | LastWins

  function Pick(p: Policy, ms: seq<Member>, n: string): Option<Json> {
    if ms == [] then None
    else
      var head, tail := ms[0], Pick(p, ms[1..], n);
      if head.name == n && (p.FirstWins? || tail.None?) then Some(head.value) else tail
  }

  /** The value a parser with that policy finds at a path. */
  function Lookup(p: Policy, j: Json, path: Path): Option<Json>
    decreases |path|
  {
    if path == [] then Some(j)
    else match (j, path[0])
      case (List(items), Index(i)) => if i < |items| then Lookup(p, items[i], path[1..]) else None
      case (Object(ms), Name(n)) =>
        (match Pick(p, ms, n)
         case Some(v) => Lookup(p, v, path[1..])
         case None => None)
      case _ => None
  }

  function Only(v: Option<Json>): seq<Json> {
    match v
    case Some(x) => [x]
    case None => []
  }

  lemma {:induction false} GatherNone(ms: seq<Member>, n: string, rest: Path)
    requires forall i :: 0 <= i < |ms| ==> ms[i].name != n
    ensures Gather(ms, n, rest) == []
    ensures forall p :: Pick(p, ms, n) == None
  {
    if ms != [] {
      GatherNone(ms[1..], n, rest);
    }
  }

  lemma {:induction false} GatherOne(ms: seq<Member>, i: nat, rest: Path)
    requires DistinctNames(ms) && i < |ms|
    ensures Gather(ms, ms[i].name, rest) == Nodes(ms[i].value, rest)
    ensures forall p :: Pick(p, ms, ms[i].name) == Some(ms[i].value)
  {
    if i == 0 {
      GatherNone(ms[1..], ms[0].name, rest);
    } else {
      GatherOne(ms[1..], i - 1, rest);
    }
  }

  lemma {:induction false} GatherAtLeast(ms: seq<Member>, n: string, rest: Path, i: nat, k: nat)
    requires i <= k < |ms| && ms[i].name == n && ms[k].name == n
    ensures |Gather(ms, n, rest)| >= |Nodes(ms[k].value, rest)| + (if i < k then |Nodes(ms[i].value, rest)| else 0)
  {
    if i > 0 {
      GatherAtLeast(ms[1..], n, rest, i - 1, k - 1);
    } else if k > 0 {
      GatherAtLeast(ms[1..], n, rest, k - 1, k - 1);
    }
  }

  /** In an accepted document a path leads to one value at most, and every policy finds exactly it. */
  lemma {:induction false} OneNodePerPath(j: Json, path: Path, p: Policy)
    requires NoDuplicates(j)
    ensures Nodes(j, path) == Only(Lookup(p, j, path))
    decreases |path|
  {
    if path != [] {
      match (j, path[0])
      case (List(items), Index(i)) =>
        if i < |items| {
          OneNodePerPath(items[i], path[1..], p);
        }
      case (Object(ms), Name(n)) =>
        if i: nat :| i < |ms| && ms[i].name == n {
          GatherOne(ms, i, path[1..]);
          OneNodePerPath(ms[i].value, path[1..], p);
        } else {
          GatherNone(ms, n, path[1..]);
        }
      case _ =>
    }
  }

  /** A duplicate at any depth makes some path lead to two values. */
  lemma {:induction false} AmbiguousPath(j: Json) returns (path: Path)
    requires !NoDuplicates(j)
    ensures |Nodes(j, path)| >= 2
    decreases j
  {
    match j
    case List(items) =>
      var i: nat :| i < |items| && !NoDuplicates(items[i]);
      var inner := AmbiguousPath(items[i]);
      path := [Index(i)] + inner;
      assert path[1..] == inner;
    case Object(ms) =>
      if !DistinctNames(ms) {
        var i: nat, k: nat :| i < k < |ms| && ms[i].name == ms[k].name;
        path := [Name(ms[i].name)];
        GatherAtLeast(ms, ms[i].name, [], i, k);
        assert path[1..] == [];
      } else {
        var i: nat :| i < |ms| && !NoDuplicates(ms[i].value);
        var inner := AmbiguousPath(ms[i].value);
        path := [Name(ms[i].name)] + inner;
        GatherAtLeast(ms, ms[i].name, inner, i, i);
        assert path[1..] == inner;
      }
  }

  /** The check accepts exactly the documents in which no path is ambiguous. */
  lemma AcceptedIffUnambiguous(j: Json)
    ensures NoDuplicates(j) <==> forall path :: |Nodes(j, path)| <= 1
  {
    if NoDuplicates(j) {
      forall path ensures |Nodes(j, path)| <= 1 {
        OneNodePerPath(j, path, FirstWins);
      }
    } else {
      var path := AmbiguousPath(j);
    }
  }

  /** First-wins and last-wins parsers agree on every path of an accepted document. */
  lemma PoliciesAgree(j: Json, path: Path)
    requires NoDuplicates(j)
    ensures Lookup(FirstWins, j, path) == Lookup(LastWins, j, path)
  {
    OneNodePerPath(j, path, FirstWins);
    OneNodePerPath(j, path, LastWins);
  }

  // Re-serialisation through a sorted map

  predicate Before(a: string, b: string) {
    b != "" && (a == "" || a[0] < b[0] || (a[0] == b[0] && Before(a[1..], b[1..])))
  }

  lemma {:induction false} BeforeTransitive(a: string, b: string, c: string)
    requires Before(a, b) && Before(b, c)
    ensures Before(a, c)
  {
    if a != "" && a[0] == b[0] && b[0] == c[0] {
      BeforeTransitive(a[1..], b[1..], c[1..]);
    }
  }

  lemma {:induction false} BeforeTotal(a: string, b: string)
    ensures a == b || Before(a, b) || Before(b, a)
    ensures !Before(a, a)
  {
    if a != "" {
      if b != "" && a[0] == b[0] {
        BeforeTotal(a[1..], b[1..]);
        assert a == [a[0]] + a[1..] && b == [b[0]] + b[1..];
      } else {
        BeforeTotal(a[1..], "");
      }
    }
  }

  predicate SortedNames(ms: seq<Member>) {
    forall i, k :: 0 <= i < k < |ms| ==> Before(ms[i].name, ms[k].name)
  }

  /** Inserting into a sorted map; an existing entry is overwritten. */
  function Put(ms: seq<Member>, m: Member): seq<Member> {
    if ms == [] then [m]
    else if ms[0].name == m.name then [m] + ms[1..]
    else if Before(m.name, ms[0].name) then [m] + ms
    else [ms[0]] + Put(ms[1..], m)
  }

  lemma {:induction false} PutSorted(ms: seq<Member>, m: Member)
    requires SortedNames(ms)
    ensures SortedNames(Put(ms, m))
    ensures forall x :: x in Put(ms, m) ==> x in ms || x == m
  {
    if ms != [] && ms[0].name != m.name {
      BeforeTotal(m.name, ms[0].name);
      if Before(m.name, ms[0].name) {
        forall k | 0 < k < |ms| ensures Before(m.name, ms[k].name) {
          BeforeTransitive(m.name, ms[0].name, ms[k].name);
        }
      } else {
        PutSorted(ms[1..], m);
        var tail := Put(ms[1..], m);
        forall k | 0 <= k < |tail| ensures Before(ms[0].name, tail[k].name) {
          assert tail[k] in ms[1..] || tail[k] == m;
        }
      }
    }
  }

  lemma {:induction false} PutLookup(ms: seq<Member>, m: Member, n: string, p: Policy)
    requires SortedNames(ms)
    ensures Pick(p, Put(ms, m), n) == if n == m.name then Some(m.value) else Pick(p, ms, n)
  {
    if ms != [] {
      if ms[0].name == m.name || Before(m.name, ms[0].name) {
        forall k | 0 <= k < |ms| && ms[0].name != m.name ensures ms[k].name != m.name {
          if k > 0 {
            BeforeTransitive(m.name, ms[0].name, ms[k].name);
          }
          BeforeTotal(m.name, m.name);
        }
        forall k | 0 < k < |ms| ensures ms[k].name != ms[0].name {
          BeforeTotal(ms[0].name, ms[0].name);
        }
        if n == m.name {
          GatherNone(ms[1..], n, []);
          if ms[0].name != m.name {
            GatherNone(ms, n, []);
          }
        }
      } else {
        PutLookup(ms[1..], m, n, p);
        if n == ms[0].name {
          forall k | 0 < k < |ms| ensures ms[k].name != ms[0].name {
            BeforeTotal(ms[0].name, ms[0].name);
          }
          GatherNone(ms[1..], n, []);
        }
      }
    }
  }

  /** The document as a tree of sorted maps, which is what is written out again. */
  function Reserialized(j: Json): Json
    decreases j, 1, 0
  {
    match j
    case List(items) => List(seq(|items|, i requires 0 <= i < |items| => Reserialized(items[i])))
    case Object(ms) => Object(Folded(j, |ms|))
    case _ => j
  }

  /** The sorted map after the first `k` members. */
  function Folded(j: Json, k: nat): seq<Member>
    requires j.Object? && k <= |j.members|
    decreases j, 0, k
  {
    if k == 0 then []
    else Put(Folded(j, k - 1), Member(j.members[k - 1].name, Reserialized(j.members[k - 1].value)))
  }

  function Image(v: Option<Json>): Option<Json> {
    match v
    case Some(x) => Some(Reserialized(x))
    case None => None
  }

  lemma {:induction false} PickLastSnoc(ms: seq<Member>, m: Member, n: string)
    ensures Pick(LastWins, ms + [m], n) == if m.name == n then Some(m.value) else Pick(LastWins, ms, n)
  {
    if ms != [] {
      PickLastSnoc(ms[1..], m, n);
      assert (ms + [m])[1..] == ms[1..] + [m];
    }
  }

  lemma {:induction false} FoldedPick(j: Json, k: nat, n: string, p: Policy)
    requires j.Object? && k <= |j.members|
    ensures SortedNames(Folded(j, k))
    ensures Pick(p, Folded(j, k), n) == Image(Pick(LastWins, j.members[..k], n))
    decreases k
  {
    hide Put, Before;
    if k > 0 {
      var m := j.members[k - 1];
      var m' := Member(m.name, Reserialized(m.value));
      FoldedPick(j, k - 1, n, p);
      PutSorted(Folded(j, k - 1), m');
      PutLookup(Folded(j, k - 1), m', n, p);
      PickLastSnoc(j.members[..k - 1], m, n);
      assert j.members[..k] == j.members[..k - 1] + [m];
    }
  }

  /** What is written out again holds, at every path, what a last-wins parser reads. */
  lemma {:induction false} ReserializedLookup(j: Json, path: Path, p: Policy)
    ensures Lookup(p, Reserialized(j), path) == Image(Lookup(LastWins, j, path))
    decreases |path|
  {
    if path != [] {
      match (j, path[0])
      case (List(items), Index(i)) =>
        if i < |items| {
          ReserializedLookup(items[i], path[1..], p);
        }
      case (Object(ms), Name(n)) =>
        FoldedPick(j, |ms|, n, p);
        assert ms[..|ms|] == ms;
        var v := Pick(LastWins, ms, n);
        if v.Some? {
          ReserializedLookup(v.value, path[1..], p);
        }
      case _ =>
    }
  }

  /** After an accepted check, the key that is parsed again is the key in the signed header: at every path,
      whatever policies the two parsers follow. */
  lemma ReserializedAsSigned(j: Json, path: Path, p: Policy, q: Policy)
    requires NoDuplicates(j)
    ensures Lookup(p, Reserialized(j), path) == Image(Lookup(q, j, path))
  {
    ReserializedLookup(j, path, p);
    PoliciesAgree(j, path);
  }

  lemma {:induction false} FoldedUnique(j: Json, k: nat)
    requires j.Object? && k <= |j.members|
    ensures SortedNames(Folded(j, k))
    ensures forall m :: m in Folded(j, k) ==> NoDuplicates(m.value)
    decreases j, 0, k
  {
    if k > 0 {
      var m := j.members[k - 1];
      FoldedUnique(j, k - 1);
      ReserializedUnique(m.value);
      PutSorted(Folded(j, k - 1), Member(m.name, Reserialized(m.value)));
    }
  }

  /** What is written out again is itself free of duplicates. */
  lemma {:induction false} ReserializedUnique(j: Json)
    ensures NoDuplicates(Reserialized(j))
    decreases j, 1, 0
  {
    match j
    case List(items) =>
      forall i | 0 <= i < |items| ensures NoDuplicates(Reserialized(items[i])) {
        ReserializedUnique(items[i]);
      }
    case Object(ms) =>
      FoldedUnique(j, |ms|);
      var out := Folded(j, |ms|);
      forall i, k | 0 <= i < k < |out| ensures out[i].name != out[k].name {
        BeforeTotal(out[i].name, out[i].name);
      }
    case _ =>
  }
}
