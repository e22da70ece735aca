/** Which RPCs a handler is linked to, case by case, in terms of how the two are spelled. */
module HandlerCases {
  import opened Text
  import opened GraphModel
  import opened Handlers
  import opened Records
  import opened ImportPass
  import opened TopicPass
  import opened RpcMeaning
  import opened Reconciled
  import opened Graph
  import opened Reload

  // ------------------------------------------------------------------ signatures

  /** The scan stops at the first occurrence from `offset` on, and misses none. */
  lemma {:induction false} FindFirst(s: string, prefix: string, offset: nat)
    requires offset <= |s|
    ensures
      match Find(s, prefix, offset)
      case None => forall i :: offset <= i <= |s| ==> !(prefix <= s[i..])
      case Some(pos) => prefix <= s[pos..] && forall i :: offset <= i < pos ==> !(prefix <= s[i..])
    decreases |s| - offset
  {
    if !(prefix <= s[offset..]) && offset < |s| {
      FindFirst(s, prefix, offset + 1);
    }
  }

  /** The prefix's first character does not recur in it, so its occurrences do not overlap. */
  predicate FirstOnce(prefix: string) {
    prefix != "" && forall d :: 0 < d < |prefix| ==> prefix[d] != prefix[0]
  }

  /** Every occurrence of such a prefix is visited. */
  lemma {:induction false} StartsAll(s: string, prefix: string, offset: nat, i: nat)
    requires FirstOnce(prefix) && offset <= i <= |s| && prefix <= s[i..]
    ensures i + |prefix| in Starts(s, prefix, offset)
    decreases |s| - offset
  {
    FindFirst(s, prefix, offset);
    var pos := Find(s, prefix, offset).value;
    Apart(s, prefix, pos, i);
    if pos < i {
      StartsAll(s, prefix, pos + |prefix|, i);
    }
  }

  /** Two occurrences are a prefix apart. */
  lemma Apart(s: string, prefix: string, a: nat, b: nat)
    requires FirstOnce(prefix) && a <= |s| && b <= |s| && prefix <= s[a..] && prefix <= s[b..]
    ensures a < b ==> a + |prefix| <= b
  {
    assert s[b..][0] == s[b] == prefix[0];
    assert forall d :: 0 <= d < |prefix| ==> prefix[d] == s[a..][d] == s[a + d];
  }

  /** And nothing else is. */
  lemma {:induction false} StartsOnly(s: string, prefix: string, offset: nat, start: nat)
    requires prefix != "" && offset <= |s| && start in Starts(s, prefix, offset)
    ensures |prefix| <= start <= |s| && prefix <= s[start - |prefix|..]
    decreases |s| - offset
  {
    FindFirst(s, prefix, offset);
    var pos := Find(s, prefix, offset).value;
    if start != pos + |prefix| {
      StartsOnly(s, prefix, pos + |prefix|, start);
    }
  }

  /** What may stand before a name in a signature. */
  predicate Introduces(p: string) {
    p == "@" || p == "'" || p == "\"" || p == "fn " || p == "func " || p == "def "
  }

  /** `rest` follows a prefix somewhere in the signature. */
  ghost predicate Follows(sig: string, rest: string) {
    exists a, p :: Introduces(p) && sig == a + p + rest
  }

  lemma StartMeans(sig: string, start: nat)
    requires start <= |sig|
    ensures StartIn(sig, start) <==> Follows(sig, sig[start..])
  {
    hide Starts;
    if StartIn(sig, start) {
      var k :| 0 <= k < |PREFIXES| && |PREFIXES[k]| > 0 && start in Starts(sig, PREFIXES[k], 0);
      var p := PREFIXES[k];
      StartsOnly(sig, p, 0, start);
      assert Introduces(p);
      assert sig == sig[..start - |p|] + p + sig[start..];
    }
    if Follows(sig, sig[start..]) {
      var a, p :| Introduces(p) && sig == a + p + sig[start..];
      assert |a| + |p| == start;
      assert p <= sig[|a|..];
      var k :| 0 <= k < |PREFIXES| && PREFIXES[k] == p by { PrefixListed(p); }
      StartsAll(sig, p, 0, |a|);
    }
  }

  lemma PrefixListed(p: string)
    requires Introduces(p)
    ensures FirstOnce(p) && exists k :: 0 <= k < |PREFIXES| && PREFIXES[k] == p
  {
    assert PREFIXES[0] == "@" && PREFIXES[1] == "'" && PREFIXES[2] == "\"" && PREFIXES[3] == "fn ";
    assert PREFIXES[4] == "func " && PREFIXES[5] == "def ";
  }

  // ------------------------------------------------------------------ names

  /** Underscores are dropped and letters lowered, one character after another. */
  lemma {:induction false} NormalizedJoin(a: string, b: string)
    ensures Normalized(a + b) == Normalized(a) + Normalized(b)
    ensures Normalized("_") == "" && forall c :: c != '_' ==> Normalized([c]) == [AsciiLowerChar(c)]
  {
    if a == "" {
      assert a + b == b;
    } else {
      assert (a + b)[1..] == a[1..] + b && (a + b)[0] == a[0];
      NormalizedJoin(a[1..], b);
    }
    assert forall c :: [c][1..] == "";
  }

  /** Equal but for letter case, or for letter case and underscores with something else left. */
  predicate Alike(a: string, b: string) {
    AsciiLower(a) == AsciiLower(b) || (Normalized(a) == Normalized(b) != "")
  }

  /** The signature introduces the name, or an identifier spelled like it. */
  ghost predicate SignatureNames(lib: Lib, sig: string, m: string) {
    m != ""
    && exists rest :: Follows(sig, rest) && (m <= rest || (exists w :: LeadingWord(lib, rest, w) && Alike(w, m)))
  }

  /** `w` is the identifier `rest` begins with. */
  ghost predicate LeadingWord(lib: Lib, rest: string, w: string) {
    && w != "" && w <= rest && (forall i :: 0 <= i < |w| ==> lib.alphanumeric(w[i]) || w[i] == '_')
    && (|w| < |rest| ==> !lib.alphanumeric(rest[|w|]) && rest[|w|] != '_')
  }

  /** The identifier read stops only where identifiers stop. */
  lemma {:induction false} IdentStops(lib: Lib, rest: string)
    ensures |Ident(lib, rest)| < |rest| ==> !IdentChar(lib, rest[|Ident(lib, rest)|])
  {
    if rest != "" && IdentChar(lib, rest[0]) {
      IdentStops(lib, rest[1..]);
    }
  }

  lemma LeadingIdent(lib: Lib, rest: string, w: string)
    ensures LeadingWord(lib, rest, w) <==> w != "" && w == Ident(lib, rest)
  {
    hide Ident;
    IdentStops(lib, rest);
    var id := Ident(lib, rest);
    assert forall k :: 0 <= k < |id| ==> id[k] == rest[k] && IdentChar(lib, rest[k]);
    if LeadingWord(lib, rest, w) {
      assert forall k :: 0 <= k < |w| ==> w[k] == rest[k] && IdentChar(lib, rest[k]);
      assert |w| == |id|;
      assert w == rest[..|w|] && id == rest[..|id|];
    }
  }

  lemma SignatureMeans(lib: Lib, sig: string, m: string)
    requires !lib.alphanumeric('.') && '.' !in m
    ensures SignatureContains(lib, sig, m) <==> SignatureNames(lib, sig, m)
  {
    hide StartIn, Follows, MatchesAt, LeadingWord, Alike;
    if SignatureContains(lib, sig, m) {
      var start :| 0 <= start <= |sig| && StartIn(sig, start) && MatchesAt(lib, sig, m, start);
      StartMeans(sig, start);
      MatchMeans(lib, sig, m, start);
    }
    if SignatureNames(lib, sig, m) {
      var rest :| Follows(sig, rest) && (m <= rest || (exists w :: LeadingWord(lib, rest, w) && Alike(w, m)));
      var start := Tail(sig, rest);
      StartMeans(sig, start);
      MatchMeans(lib, sig, m, start);
    }
  }

  lemma Tail(sig: string, rest: string) returns (start: nat)
    requires Follows(sig, rest)
    ensures start <= |sig| && sig[start..] == rest
  {
    var a, p :| Introduces(p) && sig == a + p + rest;
    start := |a + p|;
  }

  lemma MatchMeans(lib: Lib, sig: string, m: string, start: nat)
    requires !lib.alphanumeric('.') && '.' !in m && start <= |sig|
    ensures MatchesAt(lib, sig, m, start)
       <==> m <= sig[start..] || exists w :: LeadingWord(lib, sig[start..], w) && Alike(w, m)
  {
    hide LeadingWord, Normalized;
    var rest := sig[start..];
    var w := Ident(lib, rest);
    forall x ensures LeadingWord(lib, rest, x) <==> x != "" && x == w { LeadingIdent(lib, rest, x); }
    assert '.' !in w;
    assert LastSegment(w) == w && LastSegment(m) == m;
    assert BareNamesMatch(w, m) <==> Alike(w, m);
  }

  // ------------------------------------------------------------------ the edges

  /** A live gRPC node named `x`, outside proto files, that no decorator names and whose name is no pattern's. */
  ghost predicate PlainHandler(lib: Lib, nodes: Table, calls: seq<Call>, h: Id, x: string) {
    && h in nodes && nodes[h].kind in {GrpcMethod, GrpcService} && !lib.isProto(nodes[h].file) && nodes[h].name == x
    && !("rpc:" <= x) && !("produce:" <= x) && !("consume:" <= x)
    && forall r: string :: (h, r) in calls ==> r == "" || r[0] != '@'
  }

  /** A method declared in a proto file under this full name. */
  ghost predicate Declared(lib: Lib, nodes: Table, r: Id, full: string) {
    r in nodes && nodes[r].kind == GrpcMethod && lib.isProto(nodes[r].file) && nodes[r].name == full
  }

  ghost predicate Implemented(edges: seq<Edge>, h: Id, r: Id) {
    exists e: Edge :: e in edges && e.kind == Implements && e.from == h && e.to == r
  }

  lemma {:induction false} Undecorated(lib: Lib, nodes: Table, calls: seq<Call>, repo: nat, records: seq<string>)
    requires forall i :: 0 <= i < |records| ==> records[i] == "" || records[i][0] != '@'
    ensures LastTarget(lib, nodes, calls, repo, records).None?
  {
    if records != [] {
      Undecorated(lib, nodes, calls, repo, records[..|records| - 1]);
    }
  }

  lemma HandlerEdges(lib: Lib, pre: Table, nodes: Table, bound: nat, f: Facts, edges: seq<Edge>, h: Id, r: Id,
                     full: string)
    requires DerivedFrom(lib, pre, nodes, bound, f, edges) && h in nodes && IsHandler(lib, nodes[h])
    requires Declared(lib, nodes, r, full)
    ensures forall c ::
      Edge(h, r, Implements, full, c) in edges
      <==> MatchConfidence(lib, HandlerOf(lib, nodes, f.calls, h), full) == Some(c)
    ensures Implemented(edges, h, r) <==> MatchConfidence(lib, HandlerOf(lib, nodes, f.calls, h), full).Some?
  {
    hide HandlerOf, MatchConfidence, HubsOk, HubsExact, FactsLive, Hits, Targets, LeastSubject, Wildcard, CallYields;
    forall e: Edge | e.kind == Implements ensures e in edges <==> ImplementsEdge(lib, nodes, f.calls, e) {
      assert e in edges <==> DerivedEdge(lib, pre, nodes, f, e);
    }
    var o := MatchConfidence(lib, HandlerOf(lib, nodes, f.calls, h), full);
    if o.Some? {
      var e := Edge(h, r, Implements, full, o.value);
      assert e in edges;
    }
  }

  lemma PlainName(lib: Lib, nodes: Table, calls: seq<Call>, h: Id, x: string)
    requires PlainHandler(lib, nodes, calls, h, x)
    ensures h in nodes && IsHandler(lib, nodes[h])
    ensures HandlerOf(lib, nodes, calls, h) == Handler(h, x, lib.pascal(x), nodes[h].signature)
  {
    hide LastTarget;
    CallsOfMember(calls, h);
    forall i | 0 <= i < |CallsOf(calls, h)| ensures CallsOf(calls, h)[i] == "" || CallsOf(calls, h)[i][0] != '@' {
      assert CallsOf(calls, h)[i] in CallsOf(calls, h);
    }
    Undecorated(lib, nodes, calls, nodes[h].repo, CallsOf(calls, h));
  }

  /**
   * A handler is linked to the RPC `s.m` exactly when its name is `s.m` or `m` ignoring letter case, or its Pascal case
   * is `m`, or its own last segment is spelled like `m` but for case and underscores, or its signature names `m`. The
   * link is exact for the full name only.
   */
  lemma HandlerLinked(lib: Lib, pre: Table, nodes: Table, bound: nat, f: Facts, edges: seq<Edge>, h: Id, r: Id,
                      q: string, last: string, s: string, m: string)
    requires DerivedFrom(lib, pre, nodes, bound, f, edges) && !lib.alphanumeric('.')
    requires '.' !in last && '.' !in m && (q == "" || EndsWith(q, "."))
    requires PlainHandler(lib, nodes, f.calls, h, q + last) && Declared(lib, nodes, r, s + "." + m)
    ensures Edge(h, r, Implements, s + "." + m, Exact) in edges <==> q + last == s + "." + m
    ensures
      var sig := nodes[h].signature;
      Edge(h, r, Implements, s + "." + m, Heuristic) in edges
      <==> q + last != s + "." + m
           && (AsciiLower(q + last) == AsciiLower(m) || lib.pascal(q + last) == m || Alike(last, m)
               || (sig.Some? && SignatureNames(lib, sig.value, m)))
    ensures Edge(h, r, Implements, s + "." + m, Ambiguous) !in edges
  {
    hide DerivedFrom, IsHandler, HandlerOf, SignatureNames, PlainHandler, MatchConfidence, Alike;
    var x := q + last;
    PlainName(lib, nodes, f.calls, h, x);
    HandlerEdges(lib, pre, nodes, bound, f, edges, h, r, s + "." + m);
    ConfidenceMeans(lib, Handler(h, x, lib.pascal(x), nodes[h].signature), q, last, s, m);
  }

  lemma ConfidenceMeans(lib: Lib, h: Handler, q: string, last: string, s: string, m: string)
    requires !lib.alphanumeric('.') && '.' !in last && '.' !in m && (q == "" || EndsWith(q, ".")) && h.name == q + last
    ensures
      MatchConfidence(lib, h, s + "." + m)
      == if h.name == s + "." + m then Some(Exact)
         else if AsciiLower(h.name) == AsciiLower(m) || h.pascal == m || Alike(last, m)
                 || (h.signature.Some? && SignatureNames(lib, h.signature.value, m)) then Some(Heuristic)
         else None
  {
    hide SignatureContains, SignatureNames, Normalized, LastSegment, AsciiLower;
    LastSegmentAt(s, m);
    QualifiedLast(q, last);
    LastSegmentMeans(m, m);
    if h.signature.Some? {
      SignatureMeans(lib, h.signature.value, m);
    }
  }

  lemma QualifiedLast(q: string, last: string)
    requires '.' !in last && (q == "" || EndsWith(q, "."))
    ensures LastSegment(q + last) == last
  {
    if q != "" {
      assert q == q[..|q| - 1] + ".";
      LastSegmentAt(q[..|q| - 1], last);
    } else {
      assert q + last == last;
    }
  }

  /** A handler named `m` is linked to every live RPC `s.m`. */
  lemma BareHandlerLinked(lib: Lib, pre: Table, nodes: Table, bound: nat, f: Facts, edges: seq<Edge>, h: Id, r: Id,
                          s: string, m: string)
    requires DerivedFrom(lib, pre, nodes, bound, f, edges) && !lib.alphanumeric('.') && '.' !in m
    requires PlainHandler(lib, nodes, f.calls, h, m) && Declared(lib, nodes, r, s + "." + m)
    ensures Edge(h, r, Implements, s + "." + m, Heuristic) in edges
  {
    hide DerivedFrom, PlainHandler, Declared, SignatureNames;
    assert "" + m == m && (s + "." + m)[|s|] == '.';
    HandlerLinked(lib, pre, nodes, bound, f, edges, h, r, "", m, s, m);
  }

  /** Nodes of proto files, and nodes named after a pattern, implement nothing. */
  lemma NoHandler(lib: Lib, pre: Table, nodes: Table, bound: nat, f: Facts, edges: seq<Edge>, h: Id, x: string)
    requires DerivedFrom(lib, pre, nodes, bound, f, edges) && h in nodes
    requires lib.isProto(nodes[h].file) || !(nodes[h].kind in {GrpcMethod, GrpcService}) || nodes[h].name == "rpc:" + x
          || nodes[h].name == "produce:" + x || nodes[h].name == "consume:" + x
    ensures forall e: Edge :: e in edges && e.kind == Implements ==> e.from != h
  {
    hide HandlerOf, MatchConfidence, HubsOk, HubsExact, FactsLive, Hits, Targets, LeastSubject, Wildcard, CallYields;
    forall e: Edge | e in edges && e.kind == Implements ensures e.from != h {
      assert DerivedEdge(lib, pre, nodes, f, e);
    }
  }

  // ------------------------------------------------------------------ decorators

  /** A quoted expression stands for the text between its quotes. */
  lemma QuotedLiteral(lib: Lib, nodes: Table, calls: seq<Call>, raw: string, repo: nat, quote: char, v: string)
    requires quote in {'\'', '"', '`'} && lib.trim(raw) == [quote] + v + [quote] && v != ""
    ensures Literal(lib, nodes, calls, raw, repo) == Some(v)
  {
    hide ConstPairs;
    var expr := lib.trim(raw);
    assert expr[0] == quote && expr[|expr| - 1] == quote && expr[1..|expr| - 1] == v;
  }

  /** `$name=value`, recorded by a live node of the repository. */
  ghost predicate ConstantIn(nodes: Table, calls: seq<Call>, name: string, value: string, repo: nat) {
    exists c: Call :: c in calls && c.0 in nodes && nodes[c.0].repo == repo && c.1 == "$" + name + "=" + value
  }

  lemma ConstantPairs(nodes: Table, calls: seq<Call>, name: string, p: Recorded)
    requires '=' !in name
    ensures p in ConstPairs(nodes, calls, name) <==> ConstantIn(nodes, calls, name, p.1, p.0)
  {
    hide SplitOnce;
    if p in ConstPairs(nodes, calls, name) {
      var c :| c in calls && c.0 in nodes && Assignment(c.1, '$').Some? && Assignment(c.1, '$').value.0 == name
        && p == (nodes[c.0].repo, Assignment(c.1, '$').value.1);
      assert c.1 == [c.1[0]] + c.1[1..];
      assert c.1 == "$" + name + "=" + p.1;
    }
    if ConstantIn(nodes, calls, name, p.1, p.0) {
      var c: Call :| c in calls && c.0 in nodes && nodes[c.0].repo == p.0 && c.1 == "$" + name + "=" + p.1;
      assert c.1[1..] == name + "=" + p.1;
      SplitOnceAt(name, '=', p.1);
      assert Assignment(c.1, '$') == Some((name, p.1));
    }
  }

  ghost predicate ConstantAnywhere(nodes: Table, calls: seq<Call>, name: string, value: string) {
    exists repo: nat :: ConstantIn(nodes, calls, name, value, repo)
  }

  /**
   * A name stands for the one value recorded for it in the repository, or, when none is recorded there, for the one
   * value recorded anywhere. With several it stands for nothing.
   */
  lemma ConstantLiteral(lib: Lib, nodes: Table, calls: seq<Call>, raw: string, repo: nat, name: string, v: string)
    requires lib.trim(raw) == name && '=' !in name && !IsQuoted(name)
    ensures (exists u :: ConstantIn(nodes, calls, name, u, repo)) ==>
      (Literal(lib, nodes, calls, raw, repo) == Some(v)
       <==> ConstantIn(nodes, calls, name, v, repo) && forall u :: ConstantIn(nodes, calls, name, u, repo) ==> u == v)
    ensures (forall u :: !ConstantIn(nodes, calls, name, u, repo)) ==>
      (Literal(lib, nodes, calls, raw, repo) == Some(v)
       <==> ConstantAnywhere(nodes, calls, name, v) && forall u :: ConstantAnywhere(nodes, calls, name, u) ==> u == v)
  {
    hide ConstPairs, ConstantIn, IsQuoted;
    var pairs := ConstPairs(nodes, calls, name);
    forall p: Recorded { ConstantPairs(nodes, calls, name, p); }
    var mine := set p | p in pairs && Some(p.0) == Some(repo) :: p.1;
    forall u ensures u in mine <==> ConstantIn(nodes, calls, name, u, repo) {
      assert (repo, u) in pairs <==> ConstantIn(nodes, calls, name, u, repo);
    }
    var all := set p | p in pairs :: p.1;
    forall u ensures u in all <==> ConstantAnywhere(nodes, calls, name, u) {
      if ConstantAnywhere(nodes, calls, name, u) {
        var any: nat :| ConstantIn(nodes, calls, name, u, any);
        assert (any, u) in pairs;
      }
    }
    OnlyMember(if mine == {} then all else mine, v);
    assert Preferred(pairs, Some(repo)) == if mine == {} then all else mine;
  }

  lemma OnlyMember(s: set<string>, v: string)
    ensures TheOnly(s) == Some(v) <==> v in s && forall u :: u in s ==> u == v
  {
    if v in s && forall u :: u in s ==> u == v {
      assert s == {v};
    }
  }

  /**
   * A decorator `@service|method` overrides the node's name: when both parts stand for texts and exactly one proto
   * method is declared under them, in the service's package if it names one, the handler is linked to that method,
   * exactly.
   */
  lemma DecoratedHandlerLinked(lib: Lib, pre: Table, nodes: Table, bound: nat, f: Facts, edges: seq<Edge>, h: Id, r: Id,
                               first: seq<string>, e1: string, e2: string, more: string, rest: seq<string>,
                               package: Option<string>, s: string, m: string)
    requires DerivedFrom(lib, pre, nodes, bound, f, edges) && h in nodes && IsHandler(lib, nodes[h])
    requires CallsOf(f.calls, h) == first + ["@" + e1 + "|" + e2 + more] + rest && (more == "" || "|" <= more)
    requires forall i :: 0 <= i < |rest| ==> rest[i] == "" || rest[i][0] != '@'
    requires '|' !in e1 && '|' !in e2 && '.' !in s
    requires Literal(lib, nodes, f.calls, e1, nodes[h].repo)
      == Some(if package.Some? then package.value + "." + s else s)
    requires Literal(lib, nodes, f.calls, e2, nodes[h].repo) == Some(m)
    requires Declared(lib, nodes, r, s + "." + m) && (package.Some? ==> nodes[r].package == package.value)
    requires forall x ::
      Declared(lib, nodes, x, s + "." + m) && (package.Some? ==> nodes[x].package == package.value) ==>
      x == r
    ensures Edge(h, r, Implements, s + "." + m, Exact) in edges
    ensures forall x, full, c :: Declared(lib, nodes, x, full) ==>
      (Edge(h, x, Implements, full, c) in edges
       <==> MatchConfidence(lib, Handler(h, s + "." + m, lib.pascal(s + "." + m), nodes[h].signature), full) == Some(c))
  {
    hide DerivedFrom, Literal, IsHandler, CallsOf, LastTarget, MatchConfidence, HandlerRef, RSplitOnce;
    var reference := e1 + "|" + e2 + more;
    ReferenceParts(e1, e2, more);
    var name := s + "." + m;
    assert ProtoNamed(lib, nodes, name, package) == {r};
    if package.Some? {
      RSplitOnceAt(package.value, '.', s);
    } else {
      assert RSplitOnce(s, '.').None?;
    }
    assert RefTarget(lib, nodes, f.calls, nodes[h].repo, reference) == Some(name);
    LastDecorator(lib, nodes, f.calls, nodes[h].repo, first, reference, rest, name);
    assert "@" + e1 + "|" + e2 + more == "@" + reference;
    assert HandlerOf(lib, nodes, f.calls, h).name == name;
    forall x, full | Declared(lib, nodes, x, full) {
      HandlerEdges(lib, pre, nodes, bound, f, edges, h, x, full);
    }
    ExactName(lib, HandlerOf(lib, nodes, f.calls, h), name);
  }

  lemma ExactName(lib: Lib, h: Handler, full: string)
    requires h.name == full
    ensures MatchConfidence(lib, h, full) == Some(Exact)
  {
  }

  lemma ReferenceParts(e1: string, e2: string, more: string)
    requires '|' !in e1 && '|' !in e2 && (more == "" || "|" <= more)
    ensures HandlerRef(e1 + "|" + e2 + more) == Some((e1, e2))
  {
    hide SplitOnce, Split;
    assert e1 + "|" + e2 + more == e1 + ['|'] + (e2 + more);
    SplitOnceAt(e1, '|', e2 + more);
    if more == "" {
      assert e2 + more == e2;
      SplitWhole(e2, '|');
    } else {
      assert e2 + more == e2 + ['|'] + more[1..];
      SplitHead(e2, '|', more[1..]);
    }
  }

  /** The last decorator that resolves decides. */
  lemma {:induction false} LastDecorator(lib: Lib, nodes: Table, calls: seq<Call>, repo: nat, first: seq<string>,
                                         reference: string, rest: seq<string>, name: string)
    requires RefTarget(lib, nodes, calls, repo, reference) == Some(name)
    requires forall i :: 0 <= i < |rest| ==> rest[i] == "" || rest[i][0] != '@'
    ensures LastTarget(lib, nodes, calls, repo, first + ["@" + reference] + rest) == Some(name)
  {
    hide RefTarget;
    var all := first + ["@" + reference] + rest;
    if rest == [] {
      assert all[|all| - 1] == "@" + reference && ("@" + reference)[1..] == reference;
    } else {
      var init := rest[..|rest| - 1];
      assert all[..|all| - 1] == first + ["@" + reference] + init && all[|all| - 1] == rest[|rest| - 1];
      LastDecorator(lib, nodes, calls, repo, first, reference, init, name);
    }
  }
}
