/** Which edges a topic's hub has, case by case, and what the wildcards of its key mean as text. */
module TopicCases {
  import opened Text
  import opened GraphModel
  import opened Subjects
  import opened ImportPass
  import opened TopicPass
  import opened RpcMeaning
  import opened Reconciled
  import opened Graph
  import opened Reload

  // ------------------------------------------------------------------ registrations

  /** How sure a topic edge of the node is: a marked node's is a guess. */
  lemma MarkedIsGuess(f: Facts, id: Id)
    ensures TopicConfidence(f, id) == Heuristic <==> id in f.heuristic
    ensures TopicConfidence(f, id) == Exact <==> id !in f.heuristic
  {
  }

  /** A registered producer publishes to the hub of its key, and the hub is heard by each registered consumer. */
  lemma RegisteredLinked(lib: Lib, pre: Table, nodes: Table, bound: nat, f: Facts, edges: seq<Edge>, key: string,
        hub: Id)
    requires DerivedFrom(lib, pre, nodes, bound, f, edges) && IsHubOf(nodes, key, hub)
    ensures forall p :: p in At(f.producers, key) ==>
      Edge(p, hub, Produces, key, if p in f.heuristic then Heuristic else Exact) in edges
    ensures forall c :: c in At(f.consumers, key) ==>
      Edge(hub, c, Consumes, key, if c in f.heuristic then Heuristic else Exact) in edges
  {
    hide ImportEdge, ImplementsEdge, CallEdge, HubsOk, HubsExact, FactsLive, Wildcard, WildcardEdge;
    forall p | p in At(f.producers, key)
      ensures Edge(p, hub, Produces, key, if p in f.heuristic then Heuristic else Exact) in edges
    {
      var e := Edge(p, hub, Produces, key, if p in f.heuristic then Heuristic else Exact);
      assert TopicEdge(Sources(nodes), f, key, hub, e) && HubEdge(nodes, f, key, e);
      assert DerivedEdge(lib, pre, nodes, f, e);
    }
    forall c | c in At(f.consumers, key)
      ensures Edge(hub, c, Consumes, key, if c in f.heuristic then Heuristic else Exact) in edges
    {
      var e := Edge(hub, c, Consumes, key, if c in f.heuristic then Heuristic else Exact);
      assert TopicEdge(Sources(nodes), f, key, hub, e) && HubEdge(nodes, f, key, e);
      assert DerivedEdge(lib, pre, nodes, f, e);
    }
  }

  lemma HubEdgeOnly(lib: Lib, pre: Table, nodes: Table, bound: nat, f: Facts, edges: seq<Edge>, e: Edge)
    returns (key: string, hub: Id)
    requires DerivedFrom(lib, pre, nodes, bound, f, edges) && e in edges && (e.kind == Produces || e.kind == Consumes)
    ensures IsHubOf(nodes, key, hub) && TopicEdge(Sources(nodes), f, key, hub, e)
  {
    hide Hits, Targets, CallYields, HubsOk, HubsExact, FactsLive, TopicEdge, TopicKeys;
    assert DerivedEdge(lib, pre, nodes, f, e);
    key :| key in TopicKeys(f) && HubEdge(nodes, f, key, e);
    hub :| IsHubOf(nodes, key, hub) && TopicEdge(Sources(nodes), f, key, hub, e);
  }

  /** Every subscription leads from a hub to a consumer registered on its key. */
  lemma SubscriptionsRegistered(lib: Lib, pre: Table, nodes: Table, bound: nat, f: Facts, edges: seq<Edge>, e: Edge)
    requires DerivedFrom(lib, pre, nodes, bound, f, edges) && e in edges && e.kind == Consumes
    ensures IsHubOf(nodes, e.metadata, e.from) && e.to in At(f.consumers, e.metadata)
  {
    hide DerivedFrom, WildcardEdge, Wildcard;
    var key, hub := HubEdgeOnly(lib, pre, nodes, bound, f, edges, e);
    assert WildcardEdge(f, key, hub, e) ==> e.kind == Produces by { WildcardKind(f, key, hub, e); }
  }

  lemma WildcardKind(f: Facts, key: string, hub: Id, e: Edge)
    ensures WildcardEdge(f, key, hub, e) ==>
      e.kind == Produces && e.to == hub && e.confidence == Heuristic && HeardOn(f, key, e.metadata, e.from)
      && e.from in Heard(f, key)
  {
    hide Heard, HeardOn;
  }

  // ------------------------------------------------------------------ subscriptions with wildcards

  /** Some consumer of the key is live and on a transport with wildcards: neither Kafka nor a queue. */
  ghost predicate Listens(nodes: Table, f: Facts, key: string) {
    exists c :: c in At(f.consumers, key) && (c in nodes ==> nodes[c].kind != KafkaTopic && nodes[c].kind != Queue)
  }

  /**
   * Every publish to a hub is by a producer registered on its key, or by one registered on a concrete subject the key's
   * pattern matches, which neither produces nor consumes the key itself; the latter only when some consumer listens by
   * wildcard, and then labelled with the subject, as a guess.
   */
  lemma PublishesRegistered(lib: Lib, pre: Table, nodes: Table, bound: nat, f: Facts, edges: seq<Edge>, e: Edge)
    requires DerivedFrom(lib, pre, nodes, bound, f, edges) && e in edges && e.kind == Produces
    ensures exists key :: Entitled(nodes, f, key, e)
  {
    hide DerivedFrom, WildcardEdge, IsPattern, Subjects.Matches;
    var key, hub := HubEdgeOnly(lib, pre, nodes, bound, f, edges, e);
    WildcardKind(f, key, hub, e);
    if WildcardEdge(f, key, hub, e) && Wildcard(Sources(nodes), f, key) {
      ListensMeans(nodes, f, key);
      assert HeardThrough(nodes, f, key, e.metadata, e.from);
    }
    assert Entitled(nodes, f, key, e);
  }

  ghost predicate Entitled(nodes: Table, f: Facts, key: string, e: Edge) {
    && IsHubOf(nodes, key, e.to)
    && ((e.metadata == key && e.from in At(f.producers, key))
        || (e.confidence == Heuristic && HeardThrough(nodes, f, key, e.metadata, e.from)))
  }

  ghost predicate HeardThrough(nodes: Table, f: Facts, key: string, s: string, p: Id) {
    && IsPattern(key) && Listens(Sources(nodes), f, key) && !IsPattern(s) && Subjects.Matches(key, s)
    && p in At(f.producers, s) && p !in At(f.producers, key) && p !in At(f.consumers, key)
  }

  lemma ListensMeans(nodes: Table, f: Facts, key: string)
    ensures Wildcard(Sources(nodes), f, key) <==> IsPattern(key) && Listens(Sources(nodes), f, key)
  {
    hide IsPattern, Sources;
    var src, ids := Sources(nodes), At(f.consumers, key);
    if SubjectConsumer(src, ids) {
      var i :| 0 <= i < |ids| && (ids[i] in src ==> !(src[ids[i]].kind in {KafkaTopic, Queue}));
      assert ids[i] in ids;
    }
  }

  /** When no more than 256 producers are heard, each of them publishes to the hub, labelled by the least subject. */
  lemma HeardLinked(lib: Lib, pre: Table, nodes: Table, bound: nat, f: Facts, edges: seq<Edge>, key: string, hub: Id,
                    s: string, p: Id)
    requires DerivedFrom(lib, pre, nodes, bound, f, edges) && IsHubOf(nodes, key, hub)
    requires HeardThrough(nodes, f, key, s, p)
    requires (forall t :: HeardThrough(nodes, f, key, t, p) ==> t == s || Less(s, t))
    requires |Heard(f, key)| <= 256
    ensures Edge(p, hub, Produces, s, Heuristic) in edges
  {
    hide ImportEdge, ImplementsEdge, CallEdge, HubsOk, HubsExact, FactsLive, Wildcard, IsPattern, Subjects.Matches,
         Kept, Sources, Listens;
    ListensMeans(nodes, f, key);
    AllKept(f, key);
    assert HeardOn(f, key, s, p) && s in f.producers && p in f.producers[s];
    forall t | HeardOn(f, key, t, p) ensures t == s || Less(s, t) {
      assert HeardThrough(nodes, f, key, t, p);
    }
    var e := Edge(p, hub, Produces, s, Heuristic);
    assert TopicEdge(Sources(nodes), f, key, hub, e);
    ConsumedKey(nodes, f, key);
    assert HubEdge(nodes, f, key, e);
    assert DerivedEdge(lib, pre, nodes, f, e);
  }

  lemma ConsumedKey(nodes: Table, f: Facts, key: string)
    requires Listens(Sources(nodes), f, key)
    ensures key in TopicKeys(f)
  {
  }

  /** When more are heard, those of a lesser subject come before those heard on greater subjects only. */
  lemma LesserSubjectFirst(f: Facts, key: string, s: string, q: Id, p: Id)
    requires HeardOn(f, key, s, q) && forall t :: HeardOn(f, key, t, p) ==> Less(s, t)
    ensures Earlier(f, key, q, p)
  {
    hide IsPattern, Subjects.Matches;
    var ids := At(f.producers, s);
    var i :| 0 <= i < |ids| && ids[i] == q;
    assert HeardAt(f, key, s, i, q);
    assert PlacedFirst(f, key, s, i, p);
  }

  // ------------------------------------------------------------------ patterns as text

  /** Splitting a joined text gives the pieces of both parts. */
  lemma {:induction false} SplitConcat(a: string, c: char, b: string)
    ensures Split(a + [c] + b, c) == Split(a, c) + Split(b, c)
    decreases |a|
  {
    match SplitOnce(a, c)
    case None =>
      SplitWhole(a, c);
      SplitHead(a, c, b);
    case Some((x, y)) =>
      SplitConcat(y, c, b);
      SplitConcatStep(x, y, c, b);
  }

  lemma SplitConcatStep(x: string, y: string, c: char, b: string)
    requires c !in x && Split(y + [c] + b, c) == Split(y, c) + Split(b, c)
    ensures Split((x + [c] + y) + [c] + b, c) == Split(x + [c] + y, c) + Split(b, c)
  {
    hide Split;
    assert (x + [c] + y) + [c] + b == x + [c] + (y + [c] + b);
    SplitHead(x, c, y + [c] + b);
    SplitHead(x, c, y);
    assert [x] + (Split(y, c) + Split(b, c)) == ([x] + Split(y, c)) + Split(b, c);
  }

  lemma LastToken(a: string, c: char, w: string)
    requires c !in w
    ensures Split(a + ([c] + w), c) == Split(a, c) + [w]
  {
    hide Split;
    assert a + ([c] + w) == a + [c] + w;
    SplitConcat(a, c, w);
    SplitWhole(w, c);
  }

  lemma {:induction false} TokenChars(s: string, c: char, i: nat)
    requires i < |Split(s, c)|
    ensures forall x :: x in Split(s, c)[i] ==> x in s
    decreases |s|
  {
    match SplitOnce(s, c)
    case None =>
    case Some((a, b)) =>
      if i > 0 {
        TokenChars(b, c, i - 1);
      }
  }

  /** `*` and a final `>` are wildcards of dotted texts, `+` and a final `#` of texts with a slash. */
  predicate Spelling(a: string, c: char, one: string, rest: string) {
    (c == '.' && one == "*" && rest == ">" && '/' !in a) || (c == '/' && one == "+" && rest == "#")
  }

  lemma SpellingDialect(a: string, c: char, one: string, rest: string, w: string)
    requires Spelling(a, c, one, rest) && '/' !in w
    ensures DialectOf(a + ([c] + w)) == Dialect(c, one, rest)
  {
    assert (a + ([c] + w))[|a|] == c;
  }

  lemma EndsInWildcard(a: string, c: char, one: string, rest: string)
    requires Spelling(a, c, one, rest)
    ensures IsPattern(a + ([c] + one)) && IsPattern(a + ([c] + rest))
  {
    hide Split;
    SpellingDialect(a, c, one, rest, one);
    SpellingDialect(a, c, one, rest, rest);
    LastToken(a, c, one);
    LastToken(a, c, rest);
    var p, q := Split(a + ([c] + one), c), Split(a + ([c] + rest), c);
    assert WildcardAt(Dialect(c, one, rest), p, |p| - 1);
    assert WildcardAt(Dialect(c, one, rest), q, |q| - 1);
  }

  /** A text without the wildcard characters of its dialect is no pattern. */
  lemma NoWildcard(a: string)
    requires if '/' in a then '+' !in a && '#' !in a else '*' !in a && '>' !in a
    ensures !IsPattern(a)
  {
    hide Split;
    var d := DialectOf(a);
    var tokens := Split(a, d.sep);
    forall i: nat | i < |tokens| ensures !WildcardAt(d, tokens, i) {
      TokenChars(a, d.sep, i);
      assert d.one[0] in d.one && d.rest[0] in d.rest;
    }
  }

  // ------------------------------------------------------------------ what patterns match

  /** A text whose tokens are no wildcards and not empty. */
  ghost predicate Level(a: string, c: char, one: string, rest: string) {
    && Spelling(a, c, one, rest)
    && forall i :: 0 <= i < |Split(a, c)| ==> Split(a, c)[i] != "" && Split(a, c)[i] != one && Split(a, c)[i] != rest
  }

  /** `a.*` and `a/+` match exactly one more token below `a`. */
  lemma OneMoreToken(a: string, c: char, one: string, rest: string, topic: string)
    requires Level(a, c, one, rest)
    ensures Subjects.Matches(a + ([c] + one), topic) <==> exists x :: x != "" && c !in x && topic == a + ([c] + x)
  {
    hide Split;
    SpellingDialect(a, c, one, rest, one);
    LastToken(a, c, one);
    var p, t := Split(a + ([c] + one), c), Split(topic, c);
    CoversExactly(Dialect(c, one, rest), p, t);
    if Subjects.Matches(a + ([c] + one), topic) {
      var x := t[|t| - 1];
      assert t == Split(a, c) + [x];
      assert c !in x;
      LastToken(a, c, x);
      SameSplit(topic, a + ([c] + x), c);
    }
    if x :| x != "" && c !in x && topic == a + ([c] + x) {
      LastToken(a, c, x);
    }
  }

  lemma SameSplit(a: string, b: string, c: char)
    requires Split(a, c) == Split(b, c)
    ensures a == b
  {
    JoinSplit(a, c);
    JoinSplit(b, c);
  }

  /** `a.>` and `a/#` match everything below `a`, of any depth; `a/#` matches `a` itself and `a.>` does not. */
  lemma AnyMoreTokens(a: string, c: char, one: string, rest: string, b: string)
    requires Level(a, c, one, rest)
    ensures Subjects.Matches(a + ([c] + rest), a + ([c] + b)) <==> NoEmptyToken(Split(b, c))
    ensures Subjects.Matches(a + ([c] + rest), a) <==> c == '/'
  {
    hide Split;
    SpellingDialect(a, c, one, rest, rest);
    LastToken(a, c, rest);
    var d := Dialect(c, one, rest);
    var p, t := Split(a + ([c] + rest), c), Split(a + ([c] + b), c);
    assert a + ([c] + b) == a + [c] + b;
    SplitConcat(a, c, b);
    CoversRest(d, p, t);
    CoversRest(d, p, Split(a, c));
    assert forall i: nat :: i < |p| - 1 ==> Fits(d, p, t, i) && Fits(d, p, Split(a, c), i);
    assert NoEmptyToken(Split(a, c));
    if NoEmptyToken(t) {
      forall i | 0 <= i < |Split(b, c)| ensures Split(b, c)[i] != "" {
        assert t[|Split(a, c)| + i] == Split(b, c)[i];
      }
    }
  }
}
