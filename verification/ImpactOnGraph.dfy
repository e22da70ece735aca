/** The impact walk's hypotheses hold of every derived graph. */
module ImpactOnGraph {
  import opened Text
  import opened GraphModel
  import opened ImportPass
  import opened TopicPass
  import opened RpcMeaning
  import opened Reconciled
  import opened Graph
  import opened Reload
  import Impact
  import opened ImpactTarget

  /** A publish leads to a hub; a subscription leads from the hub of a key to a node registered on that key. */
  lemma HubEnds(lib: Lib, pre: Table, nodes: Table, f: Facts, e: Edge)
    requires DerivedEdge(lib, pre, nodes, f, e) && FactsLive(f, Sources(nodes))
    ensures e.kind == Produces ==> e.to in nodes && nodes[e.to].package == BUS
    ensures e.kind == Consumes ==>
      e.from in nodes && nodes[e.from].package == BUS && e.to in At(f.consumers, nodes[e.from].name)
      && e.to in Sources(nodes)
  {
    hide Hits, Targets, CallYields, LeastSubject, Wildcard, Heard;
  }

  lemma EdgesApart(lib: Lib, pre: Table, nodes: Table, bound: nat, f: Facts, edges: seq<Edge>)
    requires DerivedFrom(lib, pre, nodes, bound, f, edges)
    ensures Impact.TopicsApart(edges)
  {
    hide DerivedEdge, FactsLive, HubsOk, HubsExact;
    forall e: Edge | e in edges && e.kind == Consumes ensures !Impact.Published(edges, e.to) {
      HubEnds(lib, pre, nodes, f, e);
      forall p: Edge | p in edges && p.kind == Produces ensures p.to != e.to {
        HubEnds(lib, pre, nodes, f, p);
      }
    }
  }

  /** The direct answer lists every consumer registered on the key of a matched hub. */
  ghost predicate RegistryListed(nodes: Table, f: Facts, d: Impact.Direct) {
    forall t, y ::
      t in Impact.Elements(d.topics) && t in nodes && nodes[t].package == BUS && y in At(f.consumers, nodes[t].name) ==>
        y in d.Reached()
  }

  lemma DirectIsComplete(lib: Lib, pre: Table, nodes: Table, bound: nat, f: Facts, edges: seq<Edge>, d: Impact.Direct)
    requires DerivedFrom(lib, pre, nodes, bound, f, edges) && RegistryListed(nodes, f, d)
    ensures Impact.DirectComplete(nodes, edges, d)
  {
    hide DerivedEdge, FactsLive, HubsOk, HubsExact;
    forall t,
      y | t in Impact.Elements(d.topics) && Impact.Published(edges, t) && y in nodes && Impact.Hears(edges, t, y)
        ensures y in d.Reached() {
      var p: Edge :| p in edges && p.kind == Produces && p.to == t;
      HubEnds(lib, pre, nodes, f, p);
      var e: Edge :| e in edges && e.kind == Consumes && ((e.from == t && e.to == y) || (e.to == t && e.from == y));
      HubEnds(lib, pre, nodes, f, e);
    }
  }

  /** Every key whose hub matches the target matches it too. */
  ghost predicate HubsMatchKeys(lib: Lib, f: Facts, norm: string) {
    forall key :: key in TopicKeys(f) && NodeMatches(lib, f, norm, Hub(key)) ==> KeyMatches(f, norm, key)
  }

  /** So it is when normalisation leaves the keys as they are. */
  lemma SpelledKeysMatch(lib: Lib, f: Facts, target: string)
    requires AsciiLower(lib.topicKey(target)) == lib.topicKey(target)
    requires forall key :: key in TopicKeys(f) ==> AsciiLower(key) == key && HubTopic(lib, key) == key
    ensures HubsMatchKeys(lib, f, TargetKey(lib, f, target))
  {
    hide NodeMatches, KeyMatches, TargetKey, HubTopic, TopicKeys;
    var norm := TargetKey(lib, f, target);
    TargetLower(lib, f, target);
    forall key | key in TopicKeys(f) && NodeMatches(lib, f, norm, Hub(key)) ensures KeyMatches(f, norm, key) {
      HubMatchIsKeyMatch(lib, f, norm, key);
    }
  }

  /** A direct answer lists the consumers registered on the key of every hub it matches. */
  lemma AnswerListsRegistry(lib: Lib, nodes: Table, f: Facts, norm: string, d: Impact.Direct)
    requires Answers(lib, nodes, f, norm, d) && HubsMatchKeys(lib, f, norm)
    requires HubsOk(lib, nodes) && HubsExact(nodes, f) && FactsLive(f, Sources(nodes))
    ensures RegistryListed(nodes, f, d)
  {
    hide NodeMatches, KeyMatches, TopicKeys;
    forall t,
      y | t in Impact.Elements(d.topics) && t in nodes && nodes[t].package == BUS && y in At(f.consumers, nodes[t].name)
      ensures y in d.Reached()
    {
      var key := nodes[t].name;
      Impact.ElementsMember(d.topics, t);
      assert nodes[t] == Hub(key) && key in TopicKeys(f);
      assert key in f.consumers && KeyMatches(f, norm, key) && y in f.consumers[key];
      assert Registered(f, norm, f.consumers, y);
      assert y in Sources(nodes);
      Impact.ElementsMember(d.consumers, y);
    }
  }

  /** The nodes a target names: consumers registered under a matching key, matching sagas and processors. */
  ghost function Named(lib: Lib, nodes: Table, f: Facts, norm: string): set<Id> {
    set id | id in nodes
      && (Registered(f, norm, f.consumers, id)
          || (NodeMatches(lib, f, norm, nodes[id]) && (nodes[id].kind.Saga? || nodes[id].kind.PostProcessor?)))
  }

  /** The topic nodes a target matches. */
  ghost function MatchedTopics(lib: Lib, nodes: Table, f: Facts, norm: string): set<Id> {
    set id | id in nodes && NodeMatches(lib, f, norm, nodes[id]) && StreamLike(nodes[id].kind)
  }

  lemma AnswerIsNamed(lib: Lib, nodes: Table, f: Facts, norm: string, d: Impact.Direct)
    requires Answers(lib, nodes, f, norm, d)
    ensures d.Reached() == Named(lib, nodes, f, norm) && Impact.Elements(d.topics) == MatchedTopics(lib, nodes, f, norm)
  {
    hide NodeMatches, Registered, Impact.Elements;
    forall id ensures id in d.Reached() <==> id in Named(lib, nodes, f, norm) {
      Impact.ElementsMember(d.consumers, id);
      Impact.ElementsMember(d.sagas, id);
    }
    forall id ensures id in Impact.Elements(d.topics) <==> id in MatchedTopics(lib, nodes, f, norm) {
      Impact.ElementsMember(d.topics, id);
    }
  }

  /**
   * The whole query on a derived graph: the consumers and sagas reported at a depth are exactly those within that many
   * links, less one, of the nodes the target names, by links that do not pass the matched topics again; by any links
   * when hubs match as their keys do.
   */
  method ImpactOf(lib: Lib, ghost pre: Table, nodes: Table, bound: nat, f: Facts, edges: seq<Edge>, target: string,
        depth: nat)
    returns (flow: Impact.Flow)
    requires DerivedFrom(lib, pre, nodes, bound, f, edges)
    ensures
      var norm := TargetKey(lib, f, target);
      var named, matched := Named(lib, nodes, f, norm), MatchedTopics(lib, nodes, f, norm);
      var reported := Impact.Elements(flow.consumers) + Impact.Elements(flow.sagas);
      && reported == Impact.Within(nodes, edges, matched, named, Impact.Clamp(depth) - 1)
      && (HubsMatchKeys(lib, f, norm) ==> reported == Impact.Within(nodes, edges, {}, named, Impact.Clamp(depth) - 1))
  {
    hide Named, MatchedTopics, DerivedEdge, FactsLive, HubsOk, HubsExact, TopicKeys, Answers, HubsMatchKeys, TargetKey,
         Impact.Within, Impact.Elements, Impact.DirectComplete, Impact.TopicsApart;
    var d := AnalyzeImpact(lib, nodes, bound, f, target);
    flow := Impact.AnalyzeWithDepth(nodes, edges, d, depth);
    ghost var norm := TargetKey(lib, f, target);
    AnswerIsNamed(lib, nodes, f, norm, d);
    EdgesApart(lib, pre, nodes, bound, f, edges);
    if HubsMatchKeys(lib, f, norm) {
      AnswerListsRegistry(lib, nodes, f, norm, d);
      DirectIsComplete(lib, pre, nodes, bound, f, edges, d);
    }
    Impact.ReportedExactly(nodes, edges, d, Impact.Clamp(depth) - 1);
  }
}
