/** What equal canonical lines say about two graphs: nothing recorded is left out of them. */
module PrintedFacts {
  import opened Text
  import opened Seqs
  import opened GraphModel
  import opened Records
  import opened Graph
  import opened Reconciled
  import opened Workspace
  import opened Canonical
  import opened Places
  import opened Reload

  // ------------------------------------------------------------------ counting

  /** The places of `x`. */
  function Occurrences<T(==)>(s: seq<T>, x: T): set<nat> {
    set i: nat | i < |s| && s[i] == x
  }

  /** Multiplicity counts them. */
  lemma {:induction false} CountPlaces<T>(s: seq<T>, x: T)
    ensures multiset(s)[x] == |Occurrences(s, x)|
  {
    if s == [] {
      assert Occurrences(s, x) == {};
    } else {
      var n := |s| - 1;
      CountPlaces(s[..n], x);
      assert s == s[..n] + [s[n]];
      assert Occurrences(s, x) == if s[n] == x then Occurrences(s[..n], x) + {n} else Occurrences(s[..n], x);
    }
  }

  /** The places of a list of ids at which a node of this content stands. */
  function Standing(nodes: Table, ids: seq<Id>, content: Node): set<nat> {
    set i: nat | i < |ids| && ids[i] in nodes && nodes[ids[i]] == content
  }

  /** The places of the call list at which a node of this content records `r`. */
  function Calling(nodes: Table, calls: seq<Call>, content: Node, r: string): set<nat> {
    set i: nat | i < |calls| && calls[i].0 in nodes && nodes[calls[i].0] == content && calls[i].1 == r
  }

  /** The edges between nodes of these contents with this kind, label and confidence. */
  function Leading(nodes: Table, edges: seq<Edge>, from: Node, to: Node, kind: EdgeKind, text: string, c: Confidence):
      set<nat> {
    set i: nat | i < |edges| && edges[i].from in nodes && edges[i].to in nodes && nodes[edges[i].from] == from
            && nodes[edges[i].to] == to && edges[i].kind == kind && edges[i].metadata == text
               && edges[i].confidence == c
  }

  /** The nodes of this content. */
  function Alike(nodes: Table, content: Node): set<Id> {
    set id | id in nodes && nodes[id] == content
  }

  lemma ContentsCount(nodes: Table, ids: seq<Id>, content: Node)
    ensures multiset(Contents(nodes, ids))[Some(content)] == |Standing(nodes, ids, content)|
  {
    hide Contents;
    var s := Contents(nodes, ids);
    CountPlaces(s, Some(content));
    assert Occurrences(s, Some(content)) == Standing(nodes, ids, content);
  }

  lemma CallsCount(nodes: Table, calls: seq<Call>, content: Node, r: string)
    ensures multiset(CallLines(nodes, calls))[(Some(content), r)] == |Calling(nodes, calls, content, r)|
  {
    hide CallLines;
    var s := CallLines(nodes, calls);
    CountPlaces(s, (Some(content), r));
    assert Occurrences(s, (Some(content), r)) == Calling(nodes, calls, content, r);
  }

  lemma EdgesCount(nodes: Table, edges: seq<Edge>, from: Node, to: Node, kind: EdgeKind, text: string, c: Confidence)
    ensures multiset(EdgeLines(nodes, edges))[EdgeLine(kind, Some(from), Some(to), text, c)]
         == |Leading(nodes, edges, from, to, kind, text, c)|
  {
    hide EdgeLines;
    var s, line := EdgeLines(nodes, edges), EdgeLine(kind, Some(from), Some(to), text, c);
    CountPlaces(s, line);
    assert Occurrences(s, line) == Leading(nodes, edges, from, to, kind, text, c);
  }

  function StandingAt(ids: seq<Id>, places: set<nat>): set<Id>
    requires forall i :: i in places ==> i < |ids|
  {
    set i | i in places :: ids[i]
  }

  lemma {:induction false} SameSize(places: set<nat>, ids: seq<Id>)
    requires NoDup(ids) && forall i :: i in places ==> i < |ids|
    ensures |StandingAt(ids, places)| == |places|
    decreases |places|
  {
    if places != {} {
      var k :| k in places;
      SameSize(places - {k}, ids);
      assert StandingAt(ids, places) == StandingAt(ids, places - {k}) + {ids[k]};
    }
  }

  lemma NodesCount(nodes: Table, bound: nat, content: Node)
    requires Below(nodes, bound)
    ensures multiset(Image(nodes, Ids(nodes, bound)))[content] == |Alike(nodes, content)|
  {
    hide Image, Ids;
    var ids := Ids(nodes, bound);
    forall i | 0 <= i < |ids| ensures ids[i] in nodes { assert ids[i] in ids; }
    var s := Image(nodes, ids);
    CountPlaces(s, content);
    var places := Occurrences(s, content);
    SameSize(places, ids);
    forall id ensures id in Alike(nodes, content) <==> id in StandingAt(ids, places) {
      if id in Alike(nodes, content) {
        assert id in ids;
        var i :| 0 <= i < |ids| && ids[i] == id;
        assert i in places;
      }
    }
    assert Alike(nodes, content) == StandingAt(ids, places);
  }

  // ------------------------------------------------------------------ equal lines

  /** As many nodes of each content, and as many edges between each two contents. */
  ghost predicate SameGraph(n1: Table, e1: seq<Edge>, n2: Table, e2: seq<Edge>) {
    && (forall content :: |Alike(n1, content)| == |Alike(n2, content)|)
    && (forall from, to, kind, text, c ::
         |Leading(n1, e1, from, to, kind, text, c)| == |Leading(n2, e2, from, to, kind, text, c)|)
  }

  /** Each fact recorded as often by nodes of each content. */
  ghost predicate SameRecords(n1: Table, f1: Facts, n2: Table, f2: Facts) {
    && (forall t, content :: |Standing(n1, At(f1.imports, t), content)| == |Standing(n2, At(f2.imports, t), content)|)
    && (forall t, content ::
         |Standing(n1, At(f1.producers, t), content)| == |Standing(n2, At(f2.producers, t), content)|)
    && (forall t, content ::
         |Standing(n1, At(f1.consumers, t), content)| == |Standing(n2, At(f2.consumers, t), content)|)
    && (forall content, r :: |Calling(n1, f1.calls, content, r)| == |Calling(n2, f2.calls, content, r)|)
  }

  /** Equal lines leave nothing out: nodes, edges and every kind of fact agree, content by content, repeats included. */
  lemma LinesTellAll(n1: Table, b1: nat, f1: Facts, e1: seq<Edge>, n2: Table, b2: nat, f2: Facts, e2: seq<Edge>)
    requires Below(n1, b1) && Below(n2, b2) && CanonicalLines(n1, b1, f1, e1) == CanonicalLines(n2, b2, f2, e2)
    ensures SameGraph(n1, e1, n2, e2) && SameRecords(n1, f1, n2, f2)
  {
    LinesTellGraph(n1, b1, f1, e1, n2, b2, f2, e2);
    LinesTellRecords(n1, b1, f1, e1, n2, b2, f2, e2);
  }

  lemma LinesTellGraph(n1: Table, b1: nat, f1: Facts, e1: seq<Edge>, n2: Table, b2: nat, f2: Facts, e2: seq<Edge>)
    requires Below(n1, b1) && Below(n2, b2) && CanonicalLines(n1, b1, f1, e1) == CanonicalLines(n2, b2, f2, e2)
    ensures SameGraph(n1, e1, n2, e2)
  {
    hide Alike, Leading, EdgeLines, Image, Ids, BucketLines, CallLines;
    forall content ensures |Alike(n1, content)| == |Alike(n2, content)| {
      NodesCount(n1, b1, content);
      NodesCount(n2, b2, content);
    }
    forall from, to, kind, text, c
      ensures |Leading(n1, e1, from, to, kind, text, c)| == |Leading(n2, e2, from, to, kind, text, c)|
    {
      EdgesCount(n1, e1, from, to, kind, text, c);
      EdgesCount(n2, e2, from, to, kind, text, c);
    }
  }

  lemma BucketsTell(n1: Table, i1: Buckets, n2: Table, i2: Buckets, t: string, content: Node)
    requires BucketLines(n1, i1) == BucketLines(n2, i2)
    ensures |Standing(n1, At(i1, t), content)| == |Standing(n2, At(i2, t), content)|
  {
    hide Contents, Standing;
    assert t in i1 <==> t in BucketLines(n1, i1);
    assert t in i2 <==> t in BucketLines(n2, i2);
    if t in i1 {
      assert multiset(Contents(n1, i1[t])) == BucketLines(n1, i1)[t] == multiset(Contents(n2, i2[t]));
      ContentsCount(n1, i1[t], content);
      ContentsCount(n2, i2[t], content);
    } else {
      NoneStanding(n1, content);
      NoneStanding(n2, content);
    }
  }

  lemma NoneStanding(nodes: Table, content: Node)
    ensures Standing(nodes, [], content) == {}
  {
  }

  lemma LinesTellRecords(n1: Table, b1: nat, f1: Facts, e1: seq<Edge>, n2: Table, b2: nat, f2: Facts, e2: seq<Edge>)
    requires Below(n1, b1) && Below(n2, b2) && CanonicalLines(n1, b1, f1, e1) == CanonicalLines(n2, b2, f2, e2)
    ensures SameRecords(n1, f1, n2, f2)
  {
    hide Standing, Calling, EdgeLines, Image, Ids, BucketLines, CallLines, At;
    forall t, content ensures |Standing(n1, At(f1.imports, t), content)| == |Standing(n2, At(f2.imports, t), content)| {
      BucketsTell(n1, f1.imports, n2, f2.imports, t, content);
    }
    forall t, content
      ensures |Standing(n1, At(f1.producers, t), content)| == |Standing(n2, At(f2.producers, t), content)|
    {
      BucketsTell(n1, f1.producers, n2, f2.producers, t, content);
    }
    forall t, content
      ensures |Standing(n1, At(f1.consumers, t), content)| == |Standing(n2, At(f2.consumers, t), content)|
    {
      BucketsTell(n1, f1.consumers, n2, f2.consumers, t, content);
    }
    forall content, r ensures |Calling(n1, f1.calls, content, r)| == |Calling(n2, f2.calls, content, r)| {
      CallsTell(n1, f1.calls, n2, f2.calls, content, r);
    }
  }

  lemma CallsTell(n1: Table, c1: seq<Call>, n2: Table, c2: seq<Call>, content: Node, r: string)
    requires multiset(CallLines(n1, c1)) == multiset(CallLines(n2, c2))
    ensures |Calling(n1, c1, content, r)| == |Calling(n2, c2, content, r)|
  {
    hide Calling, CallLines;
    CallsCount(n1, c1, content, r);
    CallsCount(n2, c2, content, r);
  }

  // ------------------------------------------------------------------ workspaces

  /** A node of this content is declared somewhere in the files. */
  ghost predicate SaysNode(w: Files, content: Node) {
    exists h: Place :: HandleOk(w, h) && NodeIn(w, h) == content
  }

  /** A node of this content imports, publishes, listens to or calls `t` somewhere in the files. */
  ghost predicate SaysImport(w: Files, content: Node, t: string) {
    exists h: Place :: ImportsAt(w, h, t) && NodeIn(w, h) == content
  }

  ghost predicate SaysPublish(lib: Lib, w: Files, content: Node, t: string) {
    exists h: Place :: PublishesAt(lib, w, h, t) && NodeIn(w, h) == content
  }

  ghost predicate SaysListen(lib: Lib, w: Files, content: Node, t: string) {
    exists h: Place :: ListensAt(lib, w, h, t) && NodeIn(w, h) == content
  }

  ghost predicate SaysCall(w: Files, content: Node, r: string) {
    exists h: Place :: HandleOk(w, h) && (h.1, r) in w[h.0].calls && NodeIn(w, h) == content
  }

  lemma StandsIf(nodes: Table, ids: seq<Id>, content: Node)
    ensures |Standing(nodes, ids, content)| > 0 <==> exists id :: id in ids && id in nodes && nodes[id] == content
  {
    if id :| id in ids && id in nodes && nodes[id] == content {
      var i :| 0 <= i < |ids| && ids[i] == id;
      assert i in Standing(nodes, ids, content);
    }
    if |Standing(nodes, ids, content)| > 0 {
      var i :| i in Standing(nodes, ids, content);
      assert ids[i] in ids;
    }
  }

  lemma CallsIf(nodes: Table, calls: seq<Call>, content: Node, r: string)
    ensures |Calling(nodes, calls, content, r)| > 0
      <==> exists id :: (id, r) in calls && id in nodes && nodes[id] == content
  {
    if id :| (id, r) in calls && id in nodes && nodes[id] == content {
      var i :| 0 <= i < |calls| && calls[i] == (id, r);
      assert i in Calling(nodes, calls, content, r);
    }
    if |Calling(nodes, calls, content, r)| > 0 {
      var i :| i in Calling(nodes, calls, content, r);
      assert calls[i] in calls && calls[i] == (calls[i].0, r);
    }
  }

  lemma ImportSaid(lib: Lib, w: Files, nodes: Table, f: Facts, content: Node, t: string)
    requires Represented(lib, w, Sources(nodes), f) && FactsLive(f, Sources(nodes))
    ensures |Standing(nodes, At(f.imports, t), content)| > 0 <==> SaysImport(w, content, t)
  {
    hide Represented, FactsOf, At, Standing, Topics;
    var src := Sources(nodes);
    StandsIf(nodes, At(f.imports, t), content);
    if id :| id in At(f.imports, t) && id in nodes && nodes[id] == content {
      var h := PlaceOfNode(lib, w, src, f, id);
      RecordedAt(lib, w, h, f, id, t);
    }
    if SaysImport(w, content, t) {
      var h: Place :| ImportsAt(w, h, t) && NodeIn(w, h) == content;
      var id := NodeAtPlace(lib, w, src, f, h);
      RecordedAt(lib, w, h, f, id, t);
    }
  }

  lemma PublishSaid(lib: Lib, w: Files, nodes: Table, f: Facts, content: Node, t: string)
    requires Represented(lib, w, Sources(nodes), f) && FactsLive(f, Sources(nodes))
    ensures |Standing(nodes, At(f.producers, t), content)| > 0 <==> SaysPublish(lib, w, content, t)
  {
    hide Represented, FactsOf, At, Standing, Topics;
    var src := Sources(nodes);
    StandsIf(nodes, At(f.producers, t), content);
    if id :| id in At(f.producers, t) && id in nodes && nodes[id] == content {
      var h := PlaceOfNode(lib, w, src, f, id);
      RecordedAt(lib, w, h, f, id, t);
    }
    if SaysPublish(lib, w, content, t) {
      var h: Place :| PublishesAt(lib, w, h, t) && NodeIn(w, h) == content;
      var id := NodeAtPlace(lib, w, src, f, h);
      RecordedAt(lib, w, h, f, id, t);
    }
  }

  lemma ListenSaid(lib: Lib, w: Files, nodes: Table, f: Facts, content: Node, t: string)
    requires Represented(lib, w, Sources(nodes), f) && FactsLive(f, Sources(nodes))
    ensures |Standing(nodes, At(f.consumers, t), content)| > 0 <==> SaysListen(lib, w, content, t)
  {
    hide Represented, FactsOf, At, Standing, Topics;
    var src := Sources(nodes);
    StandsIf(nodes, At(f.consumers, t), content);
    if id :| id in At(f.consumers, t) && id in nodes && nodes[id] == content {
      var h := PlaceOfNode(lib, w, src, f, id);
      RecordedAt(lib, w, h, f, id, t);
    }
    if SaysListen(lib, w, content, t) {
      var h: Place :| ListensAt(lib, w, h, t) && NodeIn(w, h) == content;
      var id := NodeAtPlace(lib, w, src, f, h);
      RecordedAt(lib, w, h, f, id, t);
    }
  }

  lemma CallSaid(lib: Lib, w: Files, nodes: Table, f: Facts, content: Node, r: string)
    requires Represented(lib, w, Sources(nodes), f) && FactsLive(f, Sources(nodes))
    ensures |Calling(nodes, f.calls, content, r)| > 0 <==> SaysCall(w, content, r)
  {
    hide Represented, Calling, CallsOf, At, Topics, Tally;
    var src := Sources(nodes);
    CallsIf(nodes, f.calls, content, r);
    if id :| (id, r) in f.calls && id in nodes && nodes[id] == content {
      var i :| 0 <= i < |f.calls| && f.calls[i] == (id, r);
      assert f.calls[i].0 in src;
      var h := PlaceOfNode(lib, w, src, f, id);
      CallsOfMember(f.calls, id);
      CallsOfMember(w[h.0].calls, h.1);
    }
    if SaysCall(w, content, r) {
      var h: Place :| HandleOk(w, h) && (h.1, r) in w[h.0].calls && NodeIn(w, h) == content;
      var id := NodeAtPlace(lib, w, src, f, h);
      CallsOfMember(f.calls, id);
      CallsOfMember(w[h.0].calls, h.1);
    }
  }

  lemma ContentSaid(lib: Lib, w: Files, nodes: Table, f: Facts, content: Node)
    requires Represented(lib, w, Sources(nodes), f) && content.package != BUS
    ensures |Alike(nodes, content)| > 0 <==> SaysNode(w, content)
  {
    hide Represented, HandleOk, FactsOf;
    var src := Sources(nodes);
    if |Alike(nodes, content)| > 0 {
      var id :| id in Alike(nodes, content);
      var h := PlaceOfNode(lib, w, src, f, id);
    }
    if h: Place :| HandleOk(w, h) && NodeIn(w, h) == content {
      var id := NodeAtPlace(lib, w, src, f, h);
      assert id in Alike(nodes, content);
    }
  }

  /** The two sets of files declare the same nodes and say the same of them. */
  ghost predicate SaySame(lib: Lib, w1: Files, w2: Files) {
    && (forall content: Node :: content.package != BUS ==> (SaysNode(w1, content) <==> SaysNode(w2, content)))
    && (forall content, t :: SaysImport(w1, content, t) <==> SaysImport(w2, content, t))
    && (forall content, t :: SaysPublish(lib, w1, content, t) <==> SaysPublish(lib, w2, content, t))
    && (forall content, t :: SaysListen(lib, w1, content, t) <==> SaysListen(lib, w2, content, t))
    && (forall content, t :: SaysCall(w1, content, t) <==> SaysCall(w2, content, t))
  }

  /** Graphs of two workspaces that differ in a node or in a recorded fact print different lines. */
  lemma DifferentFactsDifferentLines(g: ContractGraph, h: ContractGraph, w1: Files, w2: Files)
    requires Holds(g, w1) && Holds(h, w2) && g.lib == h.lib && Reload.Lines(g) == Reload.Lines(h)
    ensures SaySame(g.lib, w1, w2)
  {
    hide Holds, SaysNode, SaysImport, SaysPublish, SaysListen, SaysCall, SameGraph, SameRecords, CanonicalLines;
    GraphsTellAll(g, h, w1, w2);
    forall content: Node | content.package != BUS ensures SaysNode(w1, content) <==> SaysNode(w2, content) {
      SameNodes(g, h, w1, w2, content);
    }
    forall content, t
      ensures SaysImport(w1, content, t) <==> SaysImport(w2, content, t)
      ensures SaysPublish(g.lib, w1, content, t) <==> SaysPublish(g.lib, w2, content, t)
      ensures SaysListen(g.lib, w1, content, t) <==> SaysListen(g.lib, w2, content, t)
      ensures SaysCall(w1, content, t) <==> SaysCall(w2, content, t)
    {
      SameSaid(g, h, w1, w2, content, t);
    }
  }

  lemma SameNodes(g: ContractGraph, h: ContractGraph, w1: Files, w2: Files, content: Node)
    requires Holds(g, w1) && Holds(h, w2) && SameGraph(g.nodes, g.edges, h.nodes, h.edges) && content.package != BUS
    ensures SaysNode(w1, content) <==> SaysNode(w2, content)
  {
    hide Holds, Represented, SaysNode, Alike, Leading;
    HoldsParts(g, w1);
    HoldsParts(h, w2);
    ContentSaid(g.lib, w1, g.nodes, g.Recorded(), content);
    ContentSaid(h.lib, w2, h.nodes, h.Recorded(), content);
  }

  lemma GraphsTellAll(g: ContractGraph, h: ContractGraph, w1: Files, w2: Files)
    requires Holds(g, w1) && Holds(h, w2) && Reload.Lines(g) == Reload.Lines(h)
    ensures SameGraph(g.nodes, g.edges, h.nodes, h.edges) && SameRecords(g.nodes, g.Recorded(), h.nodes, h.Recorded())
  {
    hide Represented, CanonicalLines, SameGraph, SameRecords, Coherent, HubsOk, KeysFolded, FactsLive;
    LinesTellAll(g.nodes, g.nextNodeId, g.Recorded(), g.edges, h.nodes, h.nextNodeId, h.Recorded(), h.edges);
  }

  lemma SameSaid(g: ContractGraph, h: ContractGraph, w1: Files, w2: Files, content: Node, t: string)
    requires Holds(g, w1) && Holds(h, w2) && g.lib == h.lib
    requires SameRecords(g.nodes, g.Recorded(), h.nodes, h.Recorded())
    ensures SaysImport(w1, content, t) <==> SaysImport(w2, content, t)
    ensures SaysPublish(g.lib, w1, content, t) <==> SaysPublish(g.lib, w2, content, t)
    ensures SaysListen(g.lib, w1, content, t) <==> SaysListen(g.lib, w2, content, t)
    ensures SaysCall(w1, content, t) <==> SaysCall(w2, content, t)
  {
    hide Holds, SaysImport, SaysPublish, SaysListen, SaysCall, Standing, Calling, At;
    FactsSaid(g, w1, content, t);
    FactsSaid(h, w2, content, t);
    var f1, f2 := g.Recorded(), h.Recorded();
    assert |Standing(g.nodes, At(f1.imports, t), content)| == |Standing(h.nodes, At(f2.imports, t), content)|;
    assert |Standing(g.nodes, At(f1.producers, t), content)| == |Standing(h.nodes, At(f2.producers, t), content)|;
    assert |Standing(g.nodes, At(f1.consumers, t), content)| == |Standing(h.nodes, At(f2.consumers, t), content)|;
    assert |Calling(g.nodes, f1.calls, content, t)| == |Calling(h.nodes, f2.calls, content, t)|;
  }

  lemma FactsSaid(g: ContractGraph, w: Files, content: Node, t: string)
    requires Holds(g, w)
    ensures |Standing(g.nodes, At(g.reverseDeps, t), content)| > 0 <==> SaysImport(w, content, t)
    ensures |Standing(g.nodes, At(g.topicProducers, t), content)| > 0 <==> SaysPublish(g.lib, w, content, t)
    ensures |Standing(g.nodes, At(g.topicConsumers, t), content)| > 0 <==> SaysListen(g.lib, w, content, t)
    ensures |Calling(g.nodes, g.rpcCalls, content, t)| > 0 <==> SaysCall(w, content, t)
  {
    hide Represented, FactsLive, SaysImport, SaysPublish, SaysListen, SaysCall, Standing, Calling, Coherent, HubsOk,
         KeysFolded;
    ImportSaid(g.lib, w, g.nodes, g.Recorded(), content, t);
    PublishSaid(g.lib, w, g.nodes, g.Recorded(), content, t);
    ListenSaid(g.lib, w, g.nodes, g.Recorded(), content, t);
    CallSaid(g.lib, w, g.nodes, g.Recorded(), content, t);
  }
}
