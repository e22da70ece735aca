/** What the graph must hold after `reconcile_edges`: hubs, and the edges as a set of derived facts. */
module Reconciled {
  import opened Text
  import opened GraphModel
  import opened Subjects
  import opened EdgeLog
  import opened ImportPass
  import opened TopicPass
  import opened RpcMeaning

  /** Facts about library functions: a dot is no identifier character, and a topic key is already folded. */
  ghost predicate LibOk(lib: Lib) {
    && !lib.alphanumeric('.')
    && forall t :: lib.lower(lib.topicKey(t)) == lib.topicKey(t)
  }

  /** The nodes scanned from files: package `event-bus` is reserved for hubs. */
  function Sources(nodes: Table): Table {
    map id | id in nodes && nodes[id].package != BUS :: nodes[id]
  }

  /** Every node of the reserved package is the one hub of its key. */
  ghost predicate HubsOk(lib: Lib, nodes: Table) {
    && (forall id :: id in nodes && nodes[id].package == BUS ==>
         nodes[id] == Hub(nodes[id].name) && lib.lower(nodes[id].name) == nodes[id].name)
    && (forall i, j :: i in nodes && j in nodes && nodes[i].package == BUS && nodes[j].package == BUS ==>
         nodes[i].name == nodes[j].name ==> i == j)
  }

  ghost predicate IsHubOf(nodes: Table, key: string, id: Id) {
    id in nodes && nodes[id] == Hub(key)
  }

  ghost predicate HasHub(nodes: Table, key: string) {
    exists id :: IsHubOf(nodes, key, id)
  }

  /** Hubs are exactly the keys with a producer or consumer fact. */
  ghost predicate HubsExact(nodes: Table, f: Facts) {
    && (forall key :: key in TopicKeys(f) ==> HasHub(nodes, key))
    && (forall id :: id in nodes && nodes[id].package == BUS ==> nodes[id].name in TopicKeys(f))
  }

  ghost predicate KeysFolded(lib: Lib, f: Facts) {
    forall key :: key in TopicKeys(f) ==> lib.lower(key) == key
  }

  /** No subscription hears more producers than it keeps. */
  ghost predicate NothingTruncated(nodes: Table, f: Facts) {
    forall key :: key in TopicKeys(f) ==> NotTruncated(nodes, f, key)
  }

  /** An edge of the hub of `key`, whichever id the hub has. */
  ghost predicate HubEdge(nodes: Table, f: Facts, key: string, e: Edge) {
    exists hub :: IsHubOf(nodes, key, hub) && TopicEdge(Sources(nodes), f, key, hub, e)
  }

  ghost predicate AnyHubEdge(nodes: Table, f: Facts, e: Edge) {
    exists key :: key in TopicKeys(f) && HubEdge(nodes, f, key, e)
  }

  /** Every derived edge. Imports are resolved against `pre`, the table before hubs are refreshed. */
  ghost predicate DerivedEdge(lib: Lib, pre: Table, nodes: Table, f: Facts, e: Edge) {
    || ImportEdge(lib, pre, f.imports, e)
    || AnyHubEdge(nodes, f, e)
    || ImplementsEdge(lib, nodes, f.calls, e)
    || CallEdge(lib, nodes, f.calls, e)
  }

  // ------------------------------------------------------------------ the topic loop

  /** Consumers are source nodes, so hubs do not change which transports listen. */
  lemma SameListeners(nodes: Table, nodes': Table, f: Facts, key: string)
    requires forall id :: id in At(f.consumers, key) ==> id in nodes && id in nodes' && nodes[id] == nodes'[id]
    ensures Wildcard(nodes, f, key) == Wildcard(nodes', f, key)
    ensures NotTruncated(nodes, f, key) == NotTruncated(nodes', f, key)
    ensures forall hub, e :: TopicEdge(nodes, f, key, hub, e) == TopicEdge(nodes', f, key, hub, e)
  {
    hide IsPattern, Heard, WildcardEdge, DirectEdge;
    var consumers := At(f.consumers, key);
    forall i | 0 <= i < |consumers|
      ensures consumers[i] in nodes && consumers[i] in nodes' && nodes[consumers[i]] == nodes'[consumers[i]] {
      assert consumers[i] in consumers;
    }
    assert SubjectConsumer(nodes, consumers) == SubjectConsumer(nodes', consumers);
  }

  /** The log once the hubs of the first `i` topics are linked. */
  ghost predicate Linked(nodes: Table, f: Facts, topics: seq<string>, i: nat, base: Log, r: Log)
    requires i <= |topics|
  {
    && r.Ok() && base.edges <= r.edges
    && (forall k :: k in r.seen && k !in base.seen ==>
          exists j ::
            0 <= j < i
            && ((k.2 == Produces && IsHubOf(nodes, topics[j], k.1))
               || (k.2 == Consumes && IsHubOf(nodes, topics[j], k.0))))
    && (forall e :: e in r.edges ==> e in base.edges || exists j :: 0 <= j < i && HubEdge(nodes, f, topics[j], e))
    && (forall j, e :: 0 <= j < i && HubEdge(nodes, f, topics[j], e) ==> e in r.edges)
  }

  lemma NothingLinked(nodes: Table, f: Facts, topics: seq<string>, base: Log)
    requires base.Ok()
    ensures Linked(nodes, f, topics, 0, base, base)
  {
  }

  lemma HubUnique(lib: Lib, nodes: Table, key: string, a: Id, b: Id)
    requires HubsOk(lib, nodes) && IsHubOf(nodes, key, a) && IsHubOf(nodes, key, b)
    ensures a == b
  {
  }

  /** A hub not linked yet is untouched by the log. */
  lemma NotYetTouched(lib: Lib, nodes: Table, f: Facts, topics: seq<string>, i: nat, base: Log, r: Log, hub: Id)
    requires i < |topics| && StrictlySorted(topics) && Linked(nodes, f, topics, i, base, r)
    requires base.Lacks(Produces) && base.Lacks(Consumes) && IsHubOf(nodes, topics[i], hub)
    ensures Untouched(r, hub)
  {
    hide HubEdge;
    forall j | 0 <= j < i ensures topics[j] != topics[i] {
      LessTotal(topics[j], topics[i]);
    }
  }

  /** Adding a hub for the next topic does not disturb what is linked. */
  lemma StillLinked(nodes: Table, nodes': Table, f: Facts, topics: seq<string>, i: nat, base: Log, r: Log)
    requires i <= |topics| && Linked(nodes, f, topics, i, base, r)
    requires Sources(nodes) == Sources(nodes')
    requires forall j, id :: 0 <= j < i ==> (IsHubOf(nodes, topics[j], id) <==> IsHubOf(nodes', topics[j], id))
    ensures Linked(nodes', f, topics, i, base, r)
  {
    hide Sources, TopicEdge, IsHubOf;
    forall j, e | 0 <= j < i ensures HubEdge(nodes', f, topics[j], e) <==> HubEdge(nodes, f, topics[j], e) {}
  }

  /** One more topic linked. */
  lemma LinkedOneMore(lib: Lib, nodes: Table, f: Facts, topics: seq<string>, i: nat, base: Log, r: Log, r': Log,
        hub: Id)
    requires HubsOk(lib, nodes) && i < |topics| && Linked(nodes, f, topics, i, base, r)
    requires IsHubOf(nodes, topics[i], hub)
    requires r'.Ok() && r.edges <= r'.edges && OnlyHub(r, r', hub)
    requires forall e :: e in r'.edges <==> e in r.edges || TopicEdge(Sources(nodes), f, topics[i], hub, e)
    ensures Linked(nodes, f, topics, i + 1, base, r')
  {
    hide TopicEdge, Sources;
    forall x | IsHubOf(nodes, topics[i], x) ensures x == hub {
      HubUnique(lib, nodes, topics[i], x, hub);
    }
    forall e ensures HubEdge(nodes, f, topics[i], e) <==> TopicEdge(Sources(nodes), f, topics[i], hub, e) {}
    assert forall e :: e in r.edges ==> e in r'.edges;
    forall k | k in r'.seen && k !in base.seen
      ensures exists j ::
        0 <= j < i + 1
        && ((k.2 == Produces && IsHubOf(nodes, topics[j], k.1)) || (k.2 == Consumes && IsHubOf(nodes, topics[j], k.0)))
    {
      if k !in r.seen {
        assert IsHubOf(nodes, topics[i], if k.2 == Produces then k.1 else k.0);
      }
    }
  }

  /** All topics linked: the hub edges are exactly the new ones. */
  lemma AllLinked(nodes: Table, f: Facts, topics: seq<string>, base: Log, r: Log)
    requires Linked(nodes, f, topics, |topics|, base, r)
    requires forall key :: key in topics <==> key in TopicKeys(f)
    ensures r.Ok() && base.edges <= r.edges
    ensures forall e :: e in r.edges <==> e in base.edges || AnyHubEdge(nodes, f, e)
    ensures forall k :: k in r.seen && k !in base.seen ==> k.2 == Produces || k.2 == Consumes
  {
    hide HubEdge, Sources, TopicKeys;
    forall e | e in r.edges && e !in base.edges ensures AnyHubEdge(nodes, f, e) {
      var j :| 0 <= j < |topics| && HubEdge(nodes, f, topics[j], e);
      assert topics[j] in topics;
    }
    forall e | AnyHubEdge(nodes, f, e) ensures e in r.edges {
      var key :| key in TopicKeys(f) && HubEdge(nodes, f, key, e);
      assert key in topics;
      var j :| 0 <= j < |topics| && topics[j] == key;
    }
  }
}
