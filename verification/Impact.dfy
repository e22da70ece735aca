/** The impact walk: a bounded breadth-first search over publish and subscribe edges, with file-linked hops. */
module Impact {
  import opened Text
  import opened Seqs
  import opened GraphModel

  const MAX_DEPTH: nat := 5

  function Elements<T>(s: seq<T>): set<T> {
    set i | 0 <= i < |s| :: s[i]
  }

  /** The direct answer the walk starts from. Its lists may repeat. */
  datatype Direct = Direct(upstream: seq<Id>, topics: seq<Id>, consumers: seq<Id>, sagas: seq<Id>) {
    function Reached(): set<Id> {
      Elements(consumers) + Elements(sagas)
    }
  }

  datatype Flow = Flow(
    upstream: seq<Id>, topics: seq<Id>, consumers: seq<Id>, sagas: seq<Id>, producers: seq<Id>,
    unexpanded: seq<Id>, chainEnd: seq<Id>)

  // ------------------------------------------------------------------ what a hop means

  /** A publish by `p` counts for `x`: its own, or one from the same file. */
  predicate SpeaksFor(nodes: Table, p: Id, x: Id) {
    p == x || (p in nodes && x in nodes && nodes[p].file == nodes[x].file)
  }

  ghost predicate Feeds(nodes: Table, edges: seq<Edge>, x: Id, t: Id) {
    exists e :: e in edges && e.kind == Produces && e.to == t && SpeaksFor(nodes, e.from, x)
  }

  /** A subscription joins the two, whichever way round it was recorded. */
  ghost predicate Hears(edges: seq<Edge>, t: Id, y: Id) {
    exists e :: e in edges && e.kind == Consumes && ((e.from == t && e.to == y) || (e.to == t && e.from == y))
  }

  /** One produce/consume link, through a topic outside `skip`. */
  ghost predicate Link(nodes: Table, edges: seq<Edge>, skip: set<Id>, x: Id, y: Id) {
    y in nodes && exists t :: t !in skip && Feeds(nodes, edges, x, t) && Hears(edges, t, y)
  }

  /** The live nodes at most `n` links from the seeds. */
  ghost function Within(nodes: Table, edges: seq<Edge>, skip: set<Id>, seeds: set<Id>, n: nat): set<Id> {
    if n == 0 then seeds
    else
      var near := Within(nodes, edges, skip, seeds, n - 1);
      near + set y | y in nodes && LinkedFrom(nodes, edges, skip, near, y)
  }

  ghost predicate LinkedFrom(nodes: Table, edges: seq<Edge>, skip: set<Id>, near: set<Id>, y: Id) {
    exists x :: x in near && Link(nodes, edges, skip, x, y)
  }

  /** A chain of links from a seed to `y`. */
  ghost predicate Chain(nodes: Table, edges: seq<Edge>, skip: set<Id>, seeds: set<Id>, chain: seq<Id>, y: Id) {
    && chain != [] && chain[0] in seeds && chain[|chain| - 1] == y
    && forall i :: 0 <= i < |chain| - 1 ==> Link(nodes, edges, skip, chain[i], chain[i + 1])
  }

  /** Being within `n` links is the existence of a chain of at most `n` links. */
  lemma {:induction false} WithinIsChain(nodes: Table, edges: seq<Edge>, skip: set<Id>, seeds: set<Id>, n: nat, y: Id)
    ensures y in Within(nodes, edges, skip, seeds, n)
      <==> exists chain :: Chain(nodes, edges, skip, seeds, chain, y) && |chain| <= n + 1
  {
    hide Link;
    if y in Within(nodes, edges, skip, seeds, n) {
      var chain := ChainTo(nodes, edges, skip, seeds, n, y);
    }
    if chain :| Chain(nodes, edges, skip, seeds, chain, y) && |chain| <= n + 1 {
      ChainWithin(nodes, edges, skip, seeds, n, chain, y);
    }
  }

  lemma {:induction false} ChainTo(nodes: Table, edges: seq<Edge>, skip: set<Id>, seeds: set<Id>, n: nat, y: Id)
    returns (chain: seq<Id>)
    requires y in Within(nodes, edges, skip, seeds, n)
    ensures Chain(nodes, edges, skip, seeds, chain, y) && |chain| <= n + 1
  {
    hide Link;
    if n == 0 {
      chain := [y];
    } else if y in Within(nodes, edges, skip, seeds, n - 1) {
      chain := ChainTo(nodes, edges, skip, seeds, n - 1, y);
    } else {
      var x :| x in Within(nodes, edges, skip, seeds, n - 1) && Link(nodes, edges, skip, x, y);
      var init := ChainTo(nodes, edges, skip, seeds, n - 1, x);
      chain := init + [y];
    }
  }

  lemma {:induction false} ChainWithin(nodes: Table, edges: seq<Edge>, skip: set<Id>, seeds: set<Id>, n: nat,
        chain: seq<Id>, y: Id)
    requires Chain(nodes, edges, skip, seeds, chain, y) && |chain| <= n + 1
    ensures y in Within(nodes, edges, skip, seeds, n)
  {
    hide Link;
    if |chain| == 1 {
      SeedsWithin(nodes, edges, skip, seeds, n);
    } else {
      var init := chain[..|chain| - 1];
      var x := init[|init| - 1];
      assert Chain(nodes, edges, skip, seeds, init, x);
      ChainWithin(nodes, edges, skip, seeds, n - 1, init, x);
      assert Link(nodes, edges, skip, chain[|chain| - 2], chain[|chain| - 2 + 1]);
      LinkLive(nodes, edges, skip, x, y);
    }
  }

  lemma LinkLive(nodes: Table, edges: seq<Edge>, skip: set<Id>, x: Id, y: Id)
    requires Link(nodes, edges, skip, x, y)
    ensures y in nodes
  {
  }

  lemma {:induction false} SeedsWithin(nodes: Table, edges: seq<Edge>, skip: set<Id>, seeds: set<Id>, n: nat)
    ensures seeds <= Within(nodes, edges, skip, seeds, n)
  {
    if n > 0 {
      SeedsWithin(nodes, edges, skip, seeds, n - 1);
    }
  }

  // ------------------------------------------------------------------ the walk's state

  datatype Walk = Walk(
    topics: seq<Id>, consumers: seq<Id>, sagas: seq<Id>, producers: seq<Id>,
    seenTopics: set<Id>, seenNodes: set<Id>, seenProducers: set<Id>, frontier: set<Id>, expanded: set<Id>)

  function Begin(d: Direct): Walk {
    Walk(d.topics, d.consumers, d.sagas, [], Elements(d.topics), d.Reached(), Elements(d.upstream), d.Reached(), {})
  }

  /** The pass over `Produces` edges. */
  datatype Publishes = Publishes(producers: seq<Id>, seenProducers: set<Id>, found: seq<Id>, seenTopics: set<Id>)

  function Files(nodes: Table, ids: set<Id>): set<string> {
    set x | x in ids && x in nodes :: nodes[x].file
  }

  function Publish(nodes: Table, frontier: set<Id>, e: Edge, s: Publishes): Publishes {
    var own := e.from in frontier;
    var sameFile := !own && e.from in nodes && nodes[e.from].file in Files(nodes, frontier);
    if e.kind != Produces || !(own || sameFile) then s
    else
      var listed := sameFile && e.from !in s.seenProducers;
      var unseen := e.to !in s.seenTopics;
      Publishes(
        if listed then s.producers + [e.from] else s.producers,
        if listed then s.seenProducers + {e.from} else s.seenProducers,
        if unseen then s.found + [e.to] else s.found,
        if unseen then s.seenTopics + {e.to} else s.seenTopics)
  }

  function PublishAll(nodes: Table, frontier: set<Id>, edges: seq<Edge>, s: Publishes): Publishes {
    if edges == [] then s
    else Publish(nodes, frontier, edges[|edges| - 1], PublishAll(nodes, frontier, edges[..|edges| - 1], s))
  }

  /** The pass over `Consumes` edges. */
  datatype Subscribes = Subscribes(consumers: seq<Id>, sagas: seq<Id>, seenNodes: set<Id>, next: set<Id>)

  function ConsumerEnd(found: set<Id>, e: Edge): Option<Id> {
    if e.kind != Consumes then None
    else if e.from in found then Some(e.to)
    else if e.to in found then Some(e.from)
    else None
  }

  function Subscribe(nodes: Table, found: set<Id>, e: Edge, s: Subscribes): Subscribes {
    match ConsumerEnd(found, e)
    case None => s
    case Some(y) =>
      if y in s.seenNodes then s
      else if y !in nodes then s.(seenNodes := s.seenNodes + {y})
      else if nodes[y].kind.Saga? then s.(seenNodes := s.seenNodes + {y}, next := s.next + {y}, sagas := s.sagas + [y])
      else s.(seenNodes := s.seenNodes + {y}, next := s.next + {y}, consumers := s.consumers + [y])
  }

  function SubscribeAll(nodes: Table, found: set<Id>, edges: seq<Edge>, s: Subscribes): Subscribes {
    if edges == [] then s
    else Subscribe(nodes, found, edges[|edges| - 1], SubscribeAll(nodes, found, edges[..|edges| - 1], s))
  }

  function Live(nodes: Table, ids: seq<Id>): seq<Id> {
    if ids == [] then []
    else Live(nodes, ids[..|ids| - 1]) + if ids[|ids| - 1] in nodes then [ids[|ids| - 1]] else []
  }

  /** One hop. */
  function Hop(nodes: Table, edges: seq<Edge>, w: Walk): Walk {
    var p := PublishAll(nodes, w.frontier, edges, Publishes(w.producers, w.seenProducers, [], w.seenTopics));
    var c := SubscribeAll(nodes, Elements(p.found), edges, Subscribes(w.consumers, w.sagas, w.seenNodes, {}));
    Walk(w.topics + Live(nodes, p.found), c.consumers, c.sagas, p.producers,
         p.seenTopics, c.seenNodes, p.seenProducers, c.next, w.expanded + w.frontier)
  }

  function Walked(nodes: Table, edges: seq<Edge>, d: Direct, n: nat): Walk {
    if n == 0 then Begin(d) else Hop(nodes, edges, Walked(nodes, edges, d, n - 1))
  }

  // ------------------------------------------------------------------ lists only grow

  lemma {:induction false} PublishGrows(nodes: Table, frontier: set<Id>, edges: seq<Edge>, s: Publishes)
    ensures s.producers <= PublishAll(nodes, frontier, edges, s).producers
  {
    if edges != [] {
      PublishGrows(nodes, frontier, edges[..|edges| - 1], s);
    }
  }

  lemma {:induction false} SubscribeGrows(nodes: Table, found: set<Id>, edges: seq<Edge>, s: Subscribes)
    ensures s.consumers <= SubscribeAll(nodes, found, edges, s).consumers
    ensures s.sagas <= SubscribeAll(nodes, found, edges, s).sagas
  {
    if edges != [] {
      SubscribeGrows(nodes, found, edges[..|edges| - 1], s);
    }
  }

  /** Each list at one depth is a prefix of that list one hop deeper. */
  lemma DeeperExtends(nodes: Table, edges: seq<Edge>, d: Direct, n: nat)
    ensures
      var w, w' := Walked(nodes, edges, d, n), Walked(nodes, edges, d, n + 1);
      w.topics <= w'.topics && w.consumers <= w'.consumers && w.sagas <= w'.sagas && w.producers <= w'.producers
  {
    hide PublishAll, SubscribeAll;
    var w := Walked(nodes, edges, d, n);
    var s := Publishes(w.producers, w.seenProducers, [], w.seenTopics);
    PublishGrows(nodes, w.frontier, edges, s);
    SubscribeGrows(nodes, Elements(PublishAll(nodes, w.frontier, edges, s).found), edges,
      Subscribes(w.consumers, w.sagas, w.seenNodes, {}));
  }

  // ------------------------------------------------------------------ what one pass computes

  ghost predicate FedFrom(nodes: Table, edges: seq<Edge>, frontier: set<Id>, t: Id) {
    exists x :: x in frontier && Feeds(nodes, edges, x, t)
  }

  /** The published-to topics: those seen before and those a frontier node feeds; the new ones are listed once each. */
  lemma {:induction false} PublishTopics(nodes: Table, frontier: set<Id>, edges: seq<Edge>, s: Publishes)
    requires s.found == []
    ensures
      var r := PublishAll(nodes, frontier, edges, s);
      && (forall t :: t in r.seenTopics <==> t in s.seenTopics || FedFrom(nodes, edges, frontier, t))
      && NoDup(r.found) && (forall t :: t in r.found <==> t in r.seenTopics && t !in s.seenTopics)
  {
    if edges != [] {
      var init, e := edges[..|edges| - 1], edges[|edges| - 1];
      PublishTopics(nodes, frontier, init, s);
      hide PublishAll, FedFrom;
      assert PublishAll(nodes, frontier, edges, s)
        == Publish(nodes, frontier, e,
             PublishAll(nodes, frontier, init, s)) by { PublishStep(nodes, frontier, edges, s); }
      forall t { FedOneMore(nodes, edges, frontier, t); }
    }
  }

  lemma PublishStep(nodes: Table, frontier: set<Id>, edges: seq<Edge>, s: Publishes)
    requires edges != []
    ensures PublishAll(nodes, frontier, edges, s)
      == Publish(nodes, frontier, edges[|edges| - 1], PublishAll(nodes, frontier, edges[..|edges| - 1], s))
  {
  }

  /** The edge is a publish by a frontier node or from a frontier node's file. */
  predicate Active(nodes: Table, frontier: set<Id>, e: Edge) {
    e.kind == Produces && (e.from in frontier || (e.from in nodes && nodes[e.from].file in Files(nodes, frontier)))
  }

  lemma FedOneMore(nodes: Table, edges: seq<Edge>, frontier: set<Id>, t: Id)
    requires edges != []
    ensures
      var init, e := edges[..|edges| - 1], edges[|edges| - 1];
      FedFrom(nodes, edges, frontier, t)
      <==> FedFrom(nodes, init, frontier, t) || (Active(nodes, frontier, e) && e.to == t)
  {
    var init, last := edges[..|edges| - 1], edges[|edges| - 1];
    assert edges == init + [last];
    if FedFrom(nodes, edges, frontier, t) {
      var x :| x in frontier && Feeds(nodes, edges, x, t);
      var e :| e in edges && e.kind == Produces && e.to == t && SpeaksFor(nodes, e.from, x);
      if e in init {
        assert Feeds(nodes, init, x, t);
      }
    }
    if FedFrom(nodes, init, frontier, t) {
      var x :| x in frontier && Feeds(nodes, init, x, t);
      assert Feeds(nodes, edges, x, t);
    }
    if Active(nodes, frontier, last) && last.to == t {
      assert last in edges;
      var x := if last.from in frontier then last.from
        else var x :| x in frontier && x in nodes && nodes[x].file == nodes[last.from].file; x;
      assert Feeds(nodes, edges, x, t);
    }
  }

  ghost predicate HeardFrom(edges: seq<Edge>, found: set<Id>, y: Id) {
    exists i :: 0 <= i < |edges| && ConsumerEnd(found, edges[i]) == Some(y)
  }

  /** The nodes a hop reaches: live, not seen before, and subscribed to a found topic; sagas apart from the rest. */
  lemma {:induction false} SubscribeNodes(nodes: Table, found: set<Id>, edges: seq<Edge>, s: Subscribes)
    requires s.next == {}
    ensures
      var r := SubscribeAll(nodes, found, edges, s);
      && (forall y :: y in r.seenNodes <==> y in s.seenNodes || HeardFrom(edges, found, y))
      && (forall y :: y in r.next <==> y in nodes && y in r.seenNodes && y !in s.seenNodes)
      && Appended(nodes, s, r)
  {
    if edges != [] {
      var init, e := edges[..|edges| - 1], edges[|edges| - 1];
      SubscribeNodes(nodes, found, init, s);
      SubscribeStep(nodes, found, edges, s);
      hide SubscribeAll, HeardFrom, Appended;
      forall y { HeardOneMore(edges, found, y); }
      AppendedOneMore(nodes, found, e, s, SubscribeAll(nodes, found, init, s));
    }
  }

  lemma SubscribeStep(nodes: Table, found: set<Id>, edges: seq<Edge>, s: Subscribes)
    requires edges != []
    ensures SubscribeAll(nodes, found, edges, s)
      == Subscribe(nodes, found, edges[|edges| - 1], SubscribeAll(nodes, found, edges[..|edges| - 1], s))
  {
  }

  lemma HeardOneMore(edges: seq<Edge>, found: set<Id>, y: Id)
    requires edges != []
    ensures HeardFrom(edges, found, y)
      <==> HeardFrom(edges[..|edges| - 1], found, y) || ConsumerEnd(found, edges[|edges| - 1]) == Some(y)
  {
    var init := edges[..|edges| - 1];
    if HeardFrom(init, found, y) {
      var i :| 0 <= i < |init| && ConsumerEnd(found, init[i]) == Some(y);
      assert ConsumerEnd(found, edges[i]) == Some(y);
    }
    if HeardFrom(edges, found, y) {
      var i :| 0 <= i < |edges| && ConsumerEnd(found, edges[i]) == Some(y);
      if i < |init| {
        assert ConsumerEnd(found, init[i]) == Some(y);
      }
    }
  }

  /** The pass appended each newly reached node once, sagas to the sagas and the others to the consumers. */
  ghost predicate Appended(nodes: Table, s: Subscribes, r: Subscribes) {
    && s.consumers <= r.consumers && s.sagas <= r.sagas
    && NoDup(r.consumers[|s.consumers|..]) && NoDup(r.sagas[|s.sagas|..])
    && (forall y :: y in r.consumers[|s.consumers|..] <==> y in r.next && y in nodes && !nodes[y].kind.Saga?)
    && (forall y :: y in r.sagas[|s.sagas|..] <==> y in r.next && y in nodes && nodes[y].kind.Saga?)
    && r.next <= r.seenNodes
  }

  lemma AppendedOneMore(nodes: Table, found: set<Id>, e: Edge, s: Subscribes, r: Subscribes)
    requires Appended(nodes, s, r)
    ensures Appended(nodes, s, Subscribe(nodes, found, e, r))
  {
    hide ConsumerEnd;
    var r' := Subscribe(nodes, found, e, r);
    if r'.consumers != r.consumers {
      var y := r'.consumers[|r.consumers|];
      assert r'.consumers[|s.consumers|..] == r.consumers[|s.consumers|..] + [y];
    }
    if r'.sagas != r.sagas {
      var y := r'.sagas[|r.sagas|];
      assert r'.sagas[|s.sagas|..] == r.sagas[|s.sagas|..] + [y];
    }
  }

  // ------------------------------------------------------------------ the walk is the search

  ghost predicate Published(edges: seq<Edge>, t: Id) {
    exists p :: p in edges && p.kind == Produces && p.to == t
  }

  /** No subscription joins two nodes that are both published to, so its topic end is never in doubt. */
  ghost predicate TopicsApart(edges: seq<Edge>) {
    forall e :: e in edges && e.kind == Consumes ==> !(Published(edges, e.from) && Published(edges, e.to))
  }

  ghost predicate LiveDirect(nodes: Table, d: Direct) {
    d.Reached() <= nodes.Keys
  }

  /** After `n` hops, the walk stands exactly at the search's level `n`. */
  ghost predicate AtLevel(nodes: Table, edges: seq<Edge>, d: Direct, n: nat, w: Walk) {
    var skip, seeds := Elements(d.topics), d.Reached();
    && (forall y :: y in Within(nodes, edges, skip, seeds, n) <==> y in w.seenNodes && y in nodes)
    && w.expanded == (if n == 0 then {} else Within(nodes, edges, skip, seeds, n - 1))
    && w.frontier == Within(nodes, edges, skip, seeds, n) - w.expanded
    && (forall t :: t in w.seenTopics <==> t in skip || FedFrom(nodes, edges, w.expanded, t))
  }

  ghost predicate HeardAmong(edges: seq<Edge>, found: set<Id>, y: Id) {
    exists t :: t in found && Hears(edges, t, y)
  }

  lemma HearsFound(edges: seq<Edge>, found: set<Id>, y: Id)
    requires TopicsApart(edges) && forall t :: t in found ==> Published(edges, t)
    ensures HeardFrom(edges, found, y) <==> HeardAmong(edges, found, y)
  {
    hide Published;
    if HeardFrom(edges, found, y) {
      var i :| 0 <= i < |edges| && ConsumerEnd(found, edges[i]) == Some(y);
      assert edges[i] in edges;
      assert Hears(edges, if edges[i].from in found then edges[i].from else edges[i].to, y);
    }
    if HeardAmong(edges, found, y) {
      var t :| t in found && Hears(edges, t, y);
      var e :| e in edges && e.kind == Consumes && ((e.from == t && e.to == y) || (e.to == t && e.from == y));
      var i :| 0 <= i < |edges| && edges[i] == e;
      assert ConsumerEnd(found, edges[i]) == Some(y);
    }
  }

  lemma FedIsPublished(nodes: Table, edges: seq<Edge>, frontier: set<Id>, t: Id)
    requires FedFrom(nodes, edges, frontier, t)
    ensures Published(edges, t)
  {
    var x :| x in frontier && Feeds(nodes, edges, x, t);
  }

  /** A topic an expanded node feeds has brought in its subscribers already. */
  lemma FedBefore(nodes: Table, edges: seq<Edge>, skip: set<Id>, seeds: set<Id>, n: nat, expanded: set<Id>, t: Id,
        y: Id)
    requires expanded == if n == 0 then {} else Within(nodes, edges, skip, seeds, n - 1)
    requires t !in skip && y in nodes && Hears(edges, t, y)
    ensures FedFrom(nodes, edges, expanded, t) ==> y in Within(nodes, edges, skip, seeds, n)
  {
    hide Feeds, Hears;
    if FedFrom(nodes, edges, expanded, t) {
      var x :| x in expanded && Feeds(nodes, edges, x, t);
      assert Link(nodes, edges, skip, x, y);
      assert LinkedFrom(nodes, edges, skip, expanded, y);
    }
  }

  /** The topics a hop finds: fed by the frontier, and by no expanded node. */
  ghost predicate NewTopic(nodes: Table, edges: seq<Edge>, skip: set<Id>, expanded: set<Id>, frontier: set<Id>, t: Id) {
    t !in skip && !FedFrom(nodes, edges, expanded, t) && FedFrom(nodes, edges, frontier, t)
  }

  /** A link out of an expanded node, or through a topic an expanded node feeds, leads nowhere new. */
  lemma NewLink(nodes: Table, edges: seq<Edge>, skip: set<Id>, seeds: set<Id>, n: nat, expanded: set<Id>,
        found: set<Id>, y: Id)
    requires expanded == if n == 0 then {} else Within(nodes, edges, skip, seeds, n - 1)
    requires forall t ::
      t in found <==> NewTopic(nodes, edges, skip, expanded, Within(nodes, edges, skip, seeds, n) - expanded, t)
    requires y in nodes
    ensures y in Within(nodes, edges, skip, seeds, n + 1)
      <==> y in Within(nodes, edges, skip, seeds, n) || HeardAmong(edges, found, y)
  {
    hide Feeds, Hears;
    var near := Within(nodes, edges, skip, seeds, n);
    if LinkedFrom(nodes, edges, skip, near, y) && y !in near {
      var x :| x in near && Link(nodes, edges, skip, x, y);
      var t :| t !in skip && Feeds(nodes, edges, x, t) && Hears(edges, t, y);
      FedBefore(nodes, edges, skip, seeds, n, expanded, t, y);
      assert x !in expanded;
      assert NewTopic(nodes, edges, skip, expanded, near - expanded, t);
    }
    if HeardAmong(edges, found, y) {
      var t :| t in found && Hears(edges, t, y);
      var x :| x in near - expanded && Feeds(nodes, edges, x, t);
      assert Link(nodes, edges, skip, x, y);
    }
  }

  lemma FedUnion(nodes: Table, edges: seq<Edge>, a: set<Id>, b: set<Id>, t: Id)
    ensures FedFrom(nodes, edges, a + b, t) <==> FedFrom(nodes, edges, a, t) || FedFrom(nodes, edges, b, t)
  {
    hide Feeds;
    if FedFrom(nodes, edges, a, t) {
      var x :| x in a && Feeds(nodes, edges, x, t);
      assert x in a + b;
    }
    if FedFrom(nodes, edges, b, t) {
      var x :| x in b && Feeds(nodes, edges, x, t);
      assert x in a + b;
    }
  }

  /** What the first pass of a hop finds. */
  lemma HopTopics(nodes: Table, edges: seq<Edge>, skip: set<Id>, w: Walk)
    requires forall t :: t in w.seenTopics <==> t in skip || FedFrom(nodes, edges, w.expanded, t)
    ensures
      var p := PublishAll(nodes, w.frontier, edges, Publishes(w.producers, w.seenProducers, [], w.seenTopics));
      && (forall t :: t in p.seenTopics <==> t in skip || FedFrom(nodes, edges, w.expanded + w.frontier, t))
      && (forall t :: t in Elements(p.found) <==> NewTopic(nodes, edges, skip, w.expanded, w.frontier, t))
  {
    hide PublishAll, FedFrom, NoDup;
    var s := Publishes(w.producers, w.seenProducers, [], w.seenTopics);
    var p := PublishAll(nodes, w.frontier, edges, s);
    PublishTopics(nodes, w.frontier, edges, s);
    forall t { FedUnion(nodes, edges, w.expanded, w.frontier, t); }
    forall t ensures t in Elements(p.found) <==> t in p.found {}
  }

  /** One hop moves from one level of the search to the next. */
  lemma HopLevel(nodes: Table, edges: seq<Edge>, d: Direct, n: nat, w: Walk)
    requires TopicsApart(edges) && AtLevel(nodes, edges, d, n, w)
    ensures AtLevel(nodes, edges, d, n + 1, Hop(nodes, edges, w))
  {
    var skip, seeds := Elements(d.topics), d.Reached();
    var near := Within(nodes, edges, skip, seeds, n);
    WithinStep(nodes, edges, skip, seeds, n);
    WithinGrows(nodes, edges, skip, seeds, n);
    hide PublishAll, SubscribeAll, FedFrom, HeardFrom, HeardAmong, Within, LinkedFrom, TopicsApart, Appended, Elements,
         Live, NewTopic, Published;
    HopTopics(nodes, edges, skip, w);
    var p := PublishAll(nodes, w.frontier, edges, Publishes(w.producers, w.seenProducers, [], w.seenTopics));
    var found := Elements(p.found);
    SubscribeNodes(nodes, found, edges, Subscribes(w.consumers, w.sagas, w.seenNodes, {}));
    assert w.expanded + w.frontier == near;
    forall t | t in found ensures Published(edges, t) {
      FoundIsPublished(nodes, edges, skip, w, t);
    }
    forall y
      ensures y in Within(nodes, edges, skip, seeds, n + 1)
        <==> y in nodes && (y in w.seenNodes || HeardFrom(edges, found, y)) {
      HearsFound(edges, found, y);
      if y in nodes {
        NewLink(nodes, edges, skip, seeds, n, w.expanded, found, y);
      }
    }
    var w' := Hop(nodes, edges, w);
    assert w'.expanded == near;
    assert w'.frontier == Within(nodes, edges, skip, seeds, n + 1) - near;
  }

  lemma FoundIsPublished(nodes: Table, edges: seq<Edge>, skip: set<Id>, w: Walk, t: Id)
    requires NewTopic(nodes, edges, skip, w.expanded, w.frontier, t)
    ensures Published(edges, t)
  {
    FedIsPublished(nodes, edges, w.frontier, t);
  }

  lemma WithinStep(nodes: Table, edges: seq<Edge>, skip: set<Id>, seeds: set<Id>, n: nat)
    ensures forall y :: y in Within(nodes, edges, skip, seeds, n + 1) <==>
      y in Within(nodes, edges, skip, seeds, n)
      || (y in nodes && LinkedFrom(nodes, edges, skip, Within(nodes, edges, skip, seeds, n), y))
  {
  }

  lemma WithinGrows(nodes: Table, edges: seq<Edge>, skip: set<Id>, seeds: set<Id>, n: nat)
    ensures n > 0 ==> Within(nodes, edges, skip, seeds, n - 1) <= Within(nodes, edges, skip, seeds, n)
  {
  }

  lemma {:induction false} WalkLevel(nodes: Table, edges: seq<Edge>, d: Direct, n: nat)
    requires TopicsApart(edges) && LiveDirect(nodes, d)
    ensures AtLevel(nodes, edges, d, n, Walked(nodes, edges, d, n))
  {
    if n == 0 {
      assert forall t :: !FedFrom(nodes, edges, {}, t);
    } else {
      WalkLevel(nodes, edges, d, n - 1);
      HopLevel(nodes, edges, d, n - 1, Walked(nodes, edges, d, n - 1));
    }
  }

  // ------------------------------------------------------------------ what is reported

  lemma ElementsMember<T>(s: seq<T>, x: T)
    ensures x in Elements(s) <==> x in s
  {
  }

  lemma ElementsSplit(a: seq<Id>, b: seq<Id>, x: Id)
    requires a <= b
    ensures x in Elements(b) <==> x in Elements(a) || x in b[|a|..]
  {
    assert b == a + b[|a|..];
    ElementsMember(a, x);
    ElementsMember(b, x);
  }

  /** The nodes a list gained since the direct answer: each once, all of the given kind. */
  ghost predicate Gained(nodes: Table, from: seq<Id>, to: seq<Id>, seen: set<Id>, saga: bool) {
    && from <= to && NoDup(to[|from|..])
    && forall y :: y in to[|from|..] ==> y in nodes && y in seen && nodes[y].kind.Saga? == saga
  }

  lemma GainedMore(nodes: Table, base: seq<Id>, from: seq<Id>, to: seq<Id>, seen: set<Id>, seen': set<Id>, saga: bool)
    requires Gained(nodes, base, from, seen, saga) && seen <= seen' && from <= to && NoDup(to[|from|..])
    requires forall y :: y in to[|from|..] ==> y in nodes && y !in seen && y in seen' && nodes[y].kind.Saga? == saga
    ensures Gained(nodes, base, to, seen', saga)
  {
    var old_, added := from[|base|..], to[|from|..];
    assert to[|base|..] == old_ + added;
    forall i, j | 0 <= i < |old_| && 0 <= j < |added| ensures old_[i] != added[j] {
      assert old_[i] in old_ && added[j] in added;
    }
  }

  /** Consumers and sagas: the walk's two lists hold what the walk has seen, sagas apart from the rest. */
  ghost predicate Listed(nodes: Table, d: Direct, w: Walk) {
    && (forall y :: y in Elements(w.consumers) + Elements(w.sagas) <==> y in w.seenNodes && y in nodes)
    && Gained(nodes, d.consumers, w.consumers, w.seenNodes, false) && Gained(nodes, d.sagas, w.sagas, w.seenNodes, true)
  }

  lemma HopListed(nodes: Table, edges: seq<Edge>, d: Direct, w: Walk)
    requires Listed(nodes, d, w)
    ensures Listed(nodes, d, Hop(nodes, edges, w))
  {
    hide PublishAll, SubscribeAll, Elements, HeardFrom, NoDup, Live, Gained;
    var p := PublishAll(nodes, w.frontier, edges, Publishes(w.producers, w.seenProducers, [], w.seenTopics));
    var s := Subscribes(w.consumers, w.sagas, w.seenNodes, {});
    SubscribeNodes(nodes, Elements(p.found), edges, s);
    var r := SubscribeAll(nodes, Elements(p.found), edges, s);
    forall y {
      ElementsSplit(w.consumers, r.consumers, y);
    }
    forall y {
      ElementsSplit(w.sagas, r.sagas, y);
    }
    GainedMore(nodes, d.consumers, w.consumers, r.consumers, w.seenNodes, r.seenNodes, false);
    GainedMore(nodes, d.sagas, w.sagas, r.sagas, w.seenNodes, r.seenNodes, true);
  }

  lemma {:induction false} WalkListed(nodes: Table, edges: seq<Edge>, d: Direct, n: nat)
    requires LiveDirect(nodes, d)
    ensures Listed(nodes, d, Walked(nodes, edges, d, n))
  {
    if n > 0 {
      WalkListed(nodes, edges, d, n - 1);
      HopListed(nodes, edges, d, Walked(nodes, edges, d, n - 1));
    }
  }

  lemma {:induction false} LiveMember(nodes: Table, ids: seq<Id>, t: Id)
    ensures t in Live(nodes, ids) <==> t in ids && t in nodes
  {
    if ids != [] {
      LiveMember(nodes, ids[..|ids| - 1], t);
      assert ids == ids[..|ids| - 1] + [ids[|ids| - 1]];
    }
  }

  /** The topics: the matched ones, and the live ones an expanded node feeds. */
  lemma {:induction false} WalkTopics(nodes: Table, edges: seq<Edge>, d: Direct, n: nat, t: Id)
    ensures
      var w := Walked(nodes, edges, d, n);
      && (t in w.seenTopics <==> t in Elements(d.topics) || FedFrom(nodes, edges, w.expanded, t))
      && (t in Elements(w.topics) <==> t in Elements(d.topics) || (t in nodes && FedFrom(nodes, edges, w.expanded, t)))
  {
    if n == 0 {
      assert !FedFrom(nodes, edges, {}, t);
    } else {
      WalkTopics(nodes, edges, d, n - 1, t);
      hide PublishAll, SubscribeAll, FedFrom, Elements, NoDup, Live;
      var w := Walked(nodes, edges, d, n - 1);
      var s := Publishes(w.producers, w.seenProducers, [], w.seenTopics);
      var p := PublishAll(nodes, w.frontier, edges, s);
      PublishTopics(nodes, w.frontier, edges, s);
      FedUnion(nodes, edges, w.expanded, w.frontier, t);
      LiveMember(nodes, p.found, t);
      ElementsSplit(w.topics, w.topics + Live(nodes, p.found), t);
      assert (w.topics + Live(nodes, p.found))[|w.topics|..] == Live(nodes, p.found);
    }
  }

  /** The producer publishes from the file of a frontier node without being one. */
  ghost predicate Beside(nodes: Table, edges: seq<Edge>, frontier: set<Id>, p: Id) {
    && p in nodes && p !in frontier && nodes[p].file in Files(nodes, frontier)
    && exists e :: e in edges && e.kind == Produces && e.from == p
  }

  lemma BesideOneMore(nodes: Table, edges: seq<Edge>, frontier: set<Id>, p: Id)
    requires edges != []
    ensures
      var init, e := edges[..|edges| - 1], edges[|edges| - 1];
      Beside(nodes, edges, frontier, p) <==>
        || Beside(nodes, init, frontier, p)
        || (e.kind == Produces && e.from == p && p in nodes && p !in frontier
           && nodes[p].file in Files(nodes, frontier))
  {
    hide Files;
    assert edges == edges[..|edges| - 1] + [edges[|edges| - 1]];
  }

  lemma {:induction false} PublishProducers(nodes: Table, frontier: set<Id>, edges: seq<Edge>, s: Publishes, p: Id)
    ensures
      var r := PublishAll(nodes, frontier, edges, s);
      && (p in r.seenProducers <==> p in s.seenProducers || Beside(nodes, edges, frontier, p))
      && (p in r.producers <==> p in s.producers || (p !in s.seenProducers && Beside(nodes, edges, frontier, p)))
  {
    if edges != [] {
      PublishProducers(nodes, frontier, edges[..|edges| - 1], s, p);
      PublishStep(nodes, frontier, edges, s);
      hide PublishAll, Beside, Files;
      BesideOneMore(nodes, edges, frontier, p);
    }
  }

  ghost predicate BesideEarlier(nodes: Table, edges: seq<Edge>, d: Direct, n: nat, p: Id) {
    exists k: nat :: k < n && Beside(nodes, edges, Walked(nodes, edges, d, k).frontier, p)
  }

  /** The file-linked producers: exactly those beside some expanded frontier, the target's own producers apart. */
  lemma {:induction false} WalkProducers(nodes: Table, edges: seq<Edge>, d: Direct, n: nat, p: Id)
    ensures
      var w := Walked(nodes, edges, d, n);
      && (p in w.seenProducers <==> p in d.upstream || BesideEarlier(nodes, edges, d, n, p))
      && (p in w.producers <==> p !in d.upstream && BesideEarlier(nodes, edges, d, n, p))
  {
    hide Beside;
    if n == 0 {
      ElementsMember(d.upstream, p);
    } else {
      WalkProducers(nodes, edges, d, n - 1, p);
      var w := Walked(nodes, edges, d, n - 1);
      PublishProducers(nodes, w.frontier, edges, Publishes(w.producers, w.seenProducers, [], w.seenTopics), p);
      hide PublishAll, SubscribeAll, Elements;
      assert BesideEarlier(nodes, edges, d, n, p)
        <==> BesideEarlier(nodes, edges, d, n - 1, p) || Beside(nodes, edges, w.frontier, p);
    }
  }

  // ------------------------------------------------------------------ the main statements

  /** Every subscriber of a matched topic that is published to is already in the direct answer. */
  ghost predicate DirectComplete(nodes: Table, edges: seq<Edge>, d: Direct) {
    forall t, y :: t in Elements(d.topics) && Published(edges, t) && y in nodes && Hears(edges, t, y) ==>
      y in d.Reached()
  }

  /** Then leaving the matched topics out of the links loses nothing. */
  lemma {:induction false} SkipNothing(nodes: Table, edges: seq<Edge>, d: Direct, n: nat)
    requires DirectComplete(nodes, edges, d)
    ensures Within(nodes, edges, Elements(d.topics), d.Reached(), n) == Within(nodes, edges, {}, d.Reached(), n)
  {
    if n > 0 {
      SkipNothing(nodes, edges, d, n - 1);
      SeedsWithin(nodes, edges, {}, d.Reached(), n - 1);
      hide *;
      var near := Within(nodes, edges, {}, d.Reached(), n - 1);
      WithinWidened(nodes, edges, {}, d.Reached(), n);
      WithinWidened(nodes, edges, Elements(d.topics), d.Reached(), n);
      SkipStep(nodes, edges, d, near);
    }
  }

  lemma WithinWidened(nodes: Table, edges: seq<Edge>, skip: set<Id>, seeds: set<Id>, n: nat)
    requires n > 0
    ensures Within(nodes, edges, skip, seeds, n)
         == Widened(nodes, edges, skip, Within(nodes, edges, skip, seeds, n - 1))
  {
  }

  ghost function Widened(nodes: Table, edges: seq<Edge>, skip: set<Id>, near: set<Id>): set<Id> {
    near + set y | y in nodes && LinkedFrom(nodes, edges, skip, near, y)
  }

  lemma SkipStep(nodes: Table, edges: seq<Edge>, d: Direct, near: set<Id>)
    requires DirectComplete(nodes, edges, d) && d.Reached() <= near
    ensures Widened(nodes, edges, Elements(d.topics), near) == Widened(nodes, edges, {}, near)
  {
    hide LinkedFrom, DirectComplete, Elements;
    forall y ensures y in Widened(nodes, edges, Elements(d.topics), near) <==> y in Widened(nodes, edges, {}, near) {
      if y in nodes && y !in near {
        SkipOne(nodes, edges, d, near, y);
      }
    }
  }

  lemma FeedsPublished(nodes: Table, edges: seq<Edge>, x: Id, t: Id)
    requires Feeds(nodes, edges, x, t)
    ensures Published(edges, t)
  {
  }

  lemma SkipOne(nodes: Table, edges: seq<Edge>, d: Direct, near: set<Id>, y: Id)
    requires DirectComplete(nodes, edges, d) && d.Reached() <= near && y in nodes && y !in near
    ensures LinkedFrom(nodes, edges, {}, near, y) <==> LinkedFrom(nodes, edges, Elements(d.topics), near, y)
  {
    hide Feeds, Hears, Elements;
    if LinkedFrom(nodes, edges, {}, near, y) {
      var x :| x in near && Link(nodes, edges, {}, x, y);
      var t :| Feeds(nodes, edges, x, t) && Hears(edges, t, y);
      FeedsPublished(nodes, edges, x, t);
      assert t !in Elements(d.topics);
      assert Link(nodes, edges, Elements(d.topics), x, y);
    }
    if LinkedFrom(nodes, edges, Elements(d.topics), near, y) {
      var x :| x in near && Link(nodes, edges, Elements(d.topics), x, y);
      assert Link(nodes, edges, {}, x, y);
    }
  }

  ghost function ReportedAt(nodes: Table, edges: seq<Edge>, d: Direct, n: nat): set<Id> {
    Elements(Walked(nodes, edges, d, n).consumers) + Elements(Walked(nodes, edges, d, n).sagas)
  }

  /** The consumers and sagas reported after `n` hops are those within `n` links of the direct answer. */
  lemma ReportedExactly(nodes: Table, edges: seq<Edge>, d: Direct, n: nat)
    requires TopicsApart(edges) && LiveDirect(nodes, d)
    ensures ReportedAt(nodes, edges, d, n) == Within(nodes, edges, Elements(d.topics), d.Reached(), n)
    ensures DirectComplete(nodes, edges, d) ==>
      ReportedAt(nodes, edges, d, n) == Within(nodes, edges, {}, d.Reached(), n)
  {
    hide Within, Elements, Gained, DirectComplete, TopicsApart, Walked;
    WalkLevel(nodes, edges, d, n);
    WalkListed(nodes, edges, d, n);
    if DirectComplete(nodes, edges, d) {
      SkipNothing(nodes, edges, d, n);
    }
  }

  /** Every reported node is expanded or waiting, never both. */
  lemma ExpandedOrWaiting(nodes: Table, edges: seq<Edge>, d: Direct, n: nat)
    requires TopicsApart(edges) && LiveDirect(nodes, d)
    ensures
      var w := Walked(nodes, edges, d, n);
      w.expanded + w.frontier == ReportedAt(nodes, edges, d, n) && w.expanded !! w.frontier
  {
    hide Elements, TopicsApart, Walked;
    WalkLevel(nodes, edges, d, n);
    ReportedExactly(nodes, edges, d, n);
  }

  /** Once nothing waits, a hop changes nothing. */
  lemma IdleHop(nodes: Table, edges: seq<Edge>, w: Walk)
    requires w.frontier == {}
    ensures Hop(nodes, edges, w) == w
  {
    var s := Publishes(w.producers, w.seenProducers, [], w.seenTopics);
    IdlePublish(nodes, edges, s);
    IdleSubscribe(nodes, edges, Subscribes(w.consumers, w.sagas, w.seenNodes, {}));
    assert Elements<Id>([]) == {};
    AppendNothing(w.topics);
  }

  lemma {:induction false} IdlePublish(nodes: Table, edges: seq<Edge>, s: Publishes)
    ensures PublishAll(nodes, {}, edges, s) == s
  {
    if edges != [] {
      IdlePublish(nodes, edges[..|edges| - 1], s);
    }
  }

  lemma {:induction false} IdleSubscribe(nodes: Table, edges: seq<Edge>, s: Subscribes)
    ensures SubscribeAll(nodes, {}, edges, s) == s
  {
    if edges != [] {
      IdleSubscribe(nodes, edges[..|edges| - 1], s);
    }
  }

  lemma {:induction false} IdleForever(nodes: Table, edges: seq<Edge>, d: Direct, n: nat, m: nat)
    requires Walked(nodes, edges, d, n).frontier == {} && n <= m
    ensures Walked(nodes, edges, d, m) == Walked(nodes, edges, d, n)
    decreases m
  {
    if n < m {
      hide Hop;
      IdleForever(nodes, edges, d, n, m - 1);
      IdleHop(nodes, edges, Walked(nodes, edges, d, m - 1));
    }
  }

  /** With nothing waiting, the report is the whole causal closure, at any distance. */
  lemma NothingWaiting(nodes: Table, edges: seq<Edge>, d: Direct, n: nat, m: nat)
    requires TopicsApart(edges) && LiveDirect(nodes, d) && Walked(nodes, edges, d, n).frontier == {} && n <= m
    ensures Within(nodes, edges, Elements(d.topics), d.Reached(), m) == ReportedAt(nodes, edges, d, n)
  {
    hide Elements, TopicsApart, Walked, Within;
    IdleForever(nodes, edges, d, n, m);
    ReportedExactly(nodes, edges, d, n);
    ReportedExactly(nodes, edges, d, m);
  }

  // ------------------------------------------------------------------ the operation

  function Clamp(depth: nat): nat {
    if depth < 1 then 1 else if depth > MAX_DEPTH then MAX_DEPTH else depth
  }

  /** Paths are ordered component by component. */
  predicate PathLess(a: string, b: string) {
    ComponentsLess(Split(a, '/'), Split(b, '/'))
  }

  predicate ComponentsLess(a: seq<string>, b: seq<string>) {
    if b == [] then false
    else if a == [] then true
    else Less(a[0], b[0]) || (a[0] == b[0] && ComponentsLess(a[1..], b[1..]))
  }

  lemma {:induction false} ComponentsTotal(a: seq<string>, b: seq<string>)
    ensures ComponentsLess(a, b) || a == b || ComponentsLess(b, a)
    ensures !(ComponentsLess(a, b) && ComponentsLess(b, a))
  {
    if a != [] && b != [] {
      LessTotal(a[0], b[0]);
      ComponentsTotal(a[1..], b[1..]);
      assert a == [a[0]] + a[1..] && b == [b[0]] + b[1..];
    }
  }

  lemma {:induction false} ComponentsTransitive(a: seq<string>, b: seq<string>, c: seq<string>)
    requires ComponentsLess(a, b) && ComponentsLess(b, c)
    ensures ComponentsLess(a, c)
  {
    if a != [] {
      if Less(a[0], b[0]) && Less(b[0], c[0]) {
        LessTransitive(a[0], b[0], c[0]);
      } else if a[0] == b[0] && b[0] == c[0] && !Less(a[0], b[0]) && !Less(b[0], c[0]) {
        ComponentsTransitive(a[1..], b[1..], c[1..]);
      }
    }
  }

  lemma PathTotal(a: string, b: string)
    ensures PathLess(a, b) || a == b || PathLess(b, a)
    ensures !(PathLess(a, b) && PathLess(b, a))
  {
    hide Split;
    ComponentsTotal(Split(a, '/'), Split(b, '/'));
    JoinSplit(a, '/');
    JoinSplit(b, '/');
  }

  /** The order of the reported lists: file, line, name, id. */
  predicate LocatedBefore(nodes: Table, a: Id, b: Id)
    requires a in nodes && b in nodes
  {
    var x, y := nodes[a], nodes[b];
    if x.file != y.file then PathLess(x.file, y.file)
    else if x.lineStart != y.lineStart then x.lineStart < y.lineStart
    else if x.name != y.name then Less(x.name, y.name)
    else a < b
  }

  lemma LocatedTotal(nodes: Table, a: Id, b: Id)
    requires a in nodes && b in nodes
    ensures a == b || LocatedBefore(nodes, a, b) || LocatedBefore(nodes, b, a)
    ensures !(LocatedBefore(nodes, a, b) && LocatedBefore(nodes, b, a))
  {
    hide PathLess, Less;
    PathTotal(nodes[a].file, nodes[b].file);
    LessTotal(nodes[a].name, nodes[b].name);
  }

  lemma LocatedTransitive(nodes: Table, a: Id, b: Id, c: Id)
    requires a in nodes && b in nodes && c in nodes && LocatedBefore(nodes, a, b) && LocatedBefore(nodes, b, c)
    ensures LocatedBefore(nodes, a, c)
  {
    hide Less, ComponentsLess, Split;
    var x, y, z := nodes[a], nodes[b], nodes[c];
    if x.file != y.file && y.file != z.file {
      ComponentsTransitive(Split(x.file, '/'), Split(y.file, '/'), Split(z.file, '/'));
      PathTotal(x.file, y.file);
    }
    if x.name != y.name && y.name != z.name {
      if Less(x.name, y.name) && Less(y.name, z.name) {
        LessTransitive(x.name, y.name, z.name);
        LessTotal(x.name, y.name);
      }
    }
  }

  ghost predicate Located(nodes: Table, ids: seq<Id>) {
    && (forall i :: 0 <= i < |ids| ==> ids[i] in nodes)
    && forall i, j :: 0 <= i < j < |ids| ==> LocatedBefore(nodes, ids[i], ids[j])
  }

  method ByLocation(nodes: Table, ids: set<Id>) returns (r: seq<Id>)
    requires ids <= nodes.Keys
    ensures Located(nodes, r) && Elements(r) == ids
  {
    r := [];
    var todo := ids;
    while todo != {}
      invariant todo <= ids && Located(nodes, r) && (forall x :: x in r <==> x in ids && x !in todo)
    {
      var x :| x in todo;
      r := Place(nodes, r, x);
      todo := todo - {x};
    }
    forall x { ElementsMember(r, x); }
  }

  method Place(nodes: Table, ids: seq<Id>, x: Id) returns (r: seq<Id>)
    requires Located(nodes, ids) && x in nodes && x !in ids
    ensures Located(nodes, r) && forall y :: y in r <==> y in ids || y == x
  {
    hide LocatedBefore;
    var i := |ids|;
    while i > 0 && LocatedBefore(nodes, x, ids[i - 1])
      invariant 0 <= i <= |ids| && forall j :: i <= j < |ids| ==> LocatedBefore(nodes, x, ids[j])
    {
      i := i - 1;
    }
    r := ids[..i] + [x] + ids[i..];
    if i > 0 {
      LocatedTotal(nodes, x, ids[i - 1]);
      forall j | 0 <= j < i ensures LocatedBefore(nodes, ids[j], x) {
        if j < i - 1 { LocatedTransitive(nodes, ids[j], ids[i - 1], x); }
      }
    }
  }

  method HopOnce(nodes: Table, edges: seq<Edge>, w: Walk) returns (r: Walk)
    ensures r == Hop(nodes, edges, w)
  {
    hide Publish, Subscribe, Files;
    var p := Publishes(w.producers, w.seenProducers, [], w.seenTopics);
    ghost var p0 := p;
    for i := 0 to |edges|
      invariant p == PublishAll(nodes, w.frontier, edges[..i], p0)
    {
      assert edges[..i + 1][..i] == edges[..i];
      p := Publish(nodes, w.frontier, edges[i], p);
    }
    assert edges[..|edges|] == edges;
    var topics := w.topics;
    for i := 0 to |p.found|
      invariant topics == w.topics + Live(nodes, p.found[..i])
    {
      assert p.found[..i + 1][..i] == p.found[..i];
      if p.found[i] in nodes {
        topics := topics + [p.found[i]];
      }
    }
    assert p.found[..|p.found|] == p.found;
    var found := Elements(p.found);
    var c := Subscribes(w.consumers, w.sagas, w.seenNodes, {});
    ghost var c0 := c;
    for i := 0 to |edges|
      invariant c == SubscribeAll(nodes, found, edges[..i], c0)
    {
      assert edges[..i + 1][..i] == edges[..i];
      c := Subscribe(nodes, found, edges[i], c);
    }
    r := Walk(topics, c.consumers, c.sagas, p.producers, p.seenTopics, c.seenNodes, p.seenProducers, c.next,
      w.expanded + w.frontier);
  }

  /** Nothing the node or its file publishes: the walk ends there. */
  ghost predicate Silent(nodes: Table, edges: seq<Edge>, x: Id) {
    forall t :: !Feeds(nodes, edges, x, t)
  }

  method PublishingEnds(nodes: Table, edges: seq<Edge>, ids: set<Id>) returns (silent: set<Id>)
    requires ids <= nodes.Keys
    ensures forall x :: x in silent <==> x in ids && Silent(nodes, edges, x)
  {
    var producing: set<Id>, files: set<string> := {}, {};
    for i := 0 to |edges|
      invariant forall p :: p in producing <==> exists j ::
        0 <= j < i && edges[j].kind == Produces && edges[j].from == p
      invariant forall f :: f in files <==> exists j ::
        0 <= j < i && edges[j].kind == Produces && edges[j].from in nodes && nodes[edges[j].from].file == f
    {
      if edges[i].kind == Produces {
        producing := producing + {edges[i].from};
        if edges[i].from in nodes {
          files := files + {nodes[edges[i].from].file};
        }
      }
    }
    silent := set x | x in ids && x !in producing && nodes[x].file !in files;
    forall x | x in ids ensures x in silent <==> Silent(nodes, edges, x) {
      if x in silent {
        forall t ensures !Feeds(nodes, edges, x, t) {}
      } else {
        var j :| 0 <= j < |edges| && edges[j].kind == Produces && SpeaksFor(nodes, edges[j].from, x);
        assert Feeds(nodes, edges, x, edges[j].to);
      }
    }
  }

  lemma WaitingLive(nodes: Table, edges: seq<Edge>, d: Direct, n: nat)
    requires LiveDirect(nodes, d)
    ensures Walked(nodes, edges, d, n).frontier <= nodes.Keys && Walked(nodes, edges, d, n).expanded <= nodes.Keys
  {
    if n > 0 {
      WaitingLive(nodes, edges, d, n - 1);
      var w := Walked(nodes, edges, d, n - 1);
      var p := PublishAll(nodes, w.frontier, edges, Publishes(w.producers, w.seenProducers, [], w.seenTopics));
      SubscribeNodes(nodes, Elements(p.found), edges, Subscribes(w.consumers, w.sagas, w.seenNodes, {}));
      hide PublishAll, SubscribeAll, Elements;
    }
  }

  /** The impact of a target at a requested depth, clamped to 1 up to `MAX_DEPTH`. */
  method AnalyzeWithDepth(nodes: Table, edges: seq<Edge>, d: Direct, depth: nat) returns (flow: Flow)
    requires LiveDirect(nodes, d)
    ensures
      var w := Walked(nodes, edges, d, Clamp(depth) - 1);
      && flow.upstream == d.upstream && flow.topics == w.topics && flow.consumers == w.consumers
      && flow.sagas == w.sagas && flow.producers == w.producers
      && Elements(flow.unexpanded) == w.frontier && Located(nodes, flow.unexpanded)
      && Located(nodes, flow.chainEnd)
         && (forall x :: x in Elements(flow.chainEnd) <==> x in w.expanded && Silent(nodes, edges, x))
  {
    hide Hop, Elements, Located, Silent;
    var limit := Clamp(depth);
    var w := Begin(d);
    ghost var n := 0;
    var hop := 2;
    while hop <= limit
      invariant 2 <= hop <= limit + 1 || hop == 2
      invariant n == hop - 2 && n <= limit - 1
      invariant w == Walked(nodes, edges, d, n)
    {
      if w.frontier == {} {
        break;
      }
      w := HopOnce(nodes, edges, w);
      n, hop := n + 1, hop + 1;
    }
    if w.frontier == {} {
      IdleForever(nodes, edges, d, n, limit - 1);
    }
    WaitingLive(nodes, edges, d, n);
    var unexpanded := ByLocation(nodes, w.frontier);
    var silent := PublishingEnds(nodes, edges, w.expanded);
    var chainEnd := ByLocation(nodes, silent);
    flow := Flow(d.upstream, w.topics, w.consumers, w.sagas, w.producers, unexpanded, chainEnd);
  }

  // ------------------------------------------------------------------ in terms of edges

  /** The depth asked for is at least 1 and at most 5. */
  lemma DepthLimits(depth: nat)
    ensures Clamp(0) == 1 && Clamp(1) == 1 && Clamp(3) == 3 && Clamp(5) == 5 && (depth > 5 ==> Clamp(depth) == 5)
  {
  }

  /**
   * A consumer of a topic that a reported node publishes to, itself or through another node of its file, is reported
   * one hop later, whichever way round the subscription is stored.
   */
  lemma ReportedNext(nodes: Table, edges: seq<Edge>, d: Direct, n: nat, x: Id, p: Edge, c: Edge, y: Id)
    requires TopicsApart(edges) && LiveDirect(nodes, d) && x in ReportedAt(nodes, edges, d, n)
    requires p in edges && p.kind == Produces && p.to !in d.topics
    requires p.from == x || (p.from in nodes && x in nodes && nodes[p.from].file == nodes[x].file)
    requires c in edges && c.kind == Consumes && ((c.from == p.to && c.to == y) || (c.to == p.to && c.from == y))
    requires y in nodes
    ensures y in ReportedAt(nodes, edges, d, n + 1)
  {
    hide ReportedAt, TopicsApart, LiveDirect, DirectComplete, Elements, Walked;
    ReportedExactly(nodes, edges, d, n);
    ReportedExactly(nodes, edges, d, n + 1);
    ElementsMember(d.topics, p.to);
    assert Feeds(nodes, edges, x, p.to) && Hears(edges, p.to, y);
    assert Link(nodes, edges, Elements(d.topics), x, y);
  }

  /** Within a file, nodes are ordered by line, then by name, then by id; files by their path components. */
  lemma LocationOrder(nodes: Table, a: Id, b: Id)
    requires a in nodes && b in nodes
    ensures nodes[a].file != nodes[b].file ==> (LocatedBefore(nodes, a, b) <==> PathLess(nodes[a].file, nodes[b].file))
    ensures nodes[a].file == nodes[b].file && nodes[a].lineStart < nodes[b].lineStart ==> LocatedBefore(nodes, a, b)
    ensures
      var tied := nodes[a].file == nodes[b].file && nodes[a].lineStart == nodes[b].lineStart;
      && (tied && Less(nodes[a].name, nodes[b].name) ==> LocatedBefore(nodes, a, b))
      && (tied && nodes[a].name == nodes[b].name && a < b ==> LocatedBefore(nodes, a, b))
  {
    LessTotal(nodes[a].name, nodes[b].name);
  }

  /** A directory's files come in name order, and before those of greater directories, whatever follows. */
  lemma PathOrder(dir: string, a: string, b: string, x: string, y: string)
    requires '/' !in a && '/' !in b && '/' !in dir && Less(a, b)
    ensures PathLess(dir + "/" + a, dir + "/" + b) && PathLess(a + "/" + x, b + "/" + y) && PathLess(dir, dir + "/" + a)
  {
    hide Split;
    LessTotal(dir, dir);
    SplitHead(dir, '/', a);
    SplitHead(dir, '/', b);
    SplitHead(a, '/', x);
    SplitHead(b, '/', y);
    SplitWhole(a, '/');
    SplitWhole(b, '/');
    SplitWhole(dir, '/');
    assert [dir, a][1..] == [a] && [dir, b][1..] == [b] && [dir] + [a] == [dir, a] && [dir] + [b] == [dir, b];
    assert [dir][1..] == [];
    assert ComponentsLess([a], [b]);
    assert ComponentsLess([dir, a], [dir, b]);
    assert ComponentsLess([], [a]) && ComponentsLess([dir], [dir, a]);
    assert Split(dir + "/" + a, '/') == [dir, a] && Split(dir + "/" + b, '/') == [dir, b];
  }

  /** A chain ends at a node from which nothing is published, neither by itself nor by another node of its file. */
  lemma EndsMeans(nodes: Table, edges: seq<Edge>, x: Id)
    requires x in nodes
    ensures Silent(nodes, edges, x)
       <==> forall e: Edge :: e in edges && e.kind == Produces ==>
              e.from != x && (e.from in nodes ==> nodes[e.from].file != nodes[x].file)
  {
    if Silent(nodes, edges, x) {
      forall e: Edge | e in edges && e.kind == Produces
        ensures e.from != x && (e.from in nodes ==> nodes[e.from].file != nodes[x].file)
      {
        assert !Feeds(nodes, edges, x, e.to);
      }
    }
  }
}
