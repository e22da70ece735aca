/** The mutable graph: node table, attribute indices, raw facts and derived edges. */
module Graph {
  import opened Text
  import opened Seqs
  import opened GraphModel
  import opened Imports
  import opened ImportPass
  import opened Subjects
  import opened TopicPass
  import opened EdgeLog
  import opened RpcMeaning
  import HandlerPass
  import CallPass
  import opened Reconciled

  /** `index.entry(key).or_default().push(id)`. */
  function Push(index: Buckets, key: string, id: Id): Buckets {
    index[key := At(index, key) + [id]]
  }

  /** `map.retain(|_, ids| { ids.retain(..); !ids.is_empty() })`. */
  function RetainBuckets(index: Buckets, stale: set<Id>): (r: Buckets)
    ensures NoEmptyBucket(r)
    ensures forall k :: At(r, k) == Retain(At(index, k), stale)
  {
    map k | k in index && Retain(index[k], stale) != [] :: Retain(index[k], stale)
  }

  /** The calls of nodes outside `stale`, in their recorded order. */
  function RetainCalls(calls: seq<(Id, string)>, stale: set<Id>): (r: seq<(Id, string)>)
    ensures forall i :: 0 <= i < |r| ==> r[i].0 !in stale && r[i] in calls
  {
    if calls == [] then []
    else
      var rest := RetainCalls(calls[..|calls| - 1], stale);
      if calls[|calls| - 1].0 in stale then rest else rest + [calls[|calls| - 1]]
  }

  function RetainEdges(edges: seq<Edge>, stale: set<Id>): (r: seq<Edge>)
    ensures forall e :: e in r <==> e in edges && e.from !in stale && e.to !in stale
  {
    if edges == [] then []
    else
      var last := edges[|edges| - 1];
      var rest := RetainEdges(edges[..|edges| - 1], stale);
      if last.from in stale || last.to in stale then rest else rest + [last]
  }

  function RetainFacts(f: Facts, stale: set<Id>): Facts {
    Facts(RetainBuckets(f.imports, stale), RetainBuckets(f.producers, stale), RetainBuckets(f.consumers, stale),
          RetainCalls(f.calls, stale), f.heuristic - stale)
  }

  /** Every recorded fact is attached to a node of the table. */
  ghost predicate FactsLive(f: Facts, nodes: Table) {
    && (forall key, id :: id in At(f.imports, key) ==> id in nodes)
    && (forall key, id :: id in At(f.producers, key) ==> id in nodes)
    && (forall key, id :: id in At(f.consumers, key) ==> id in nodes)
    && (forall i :: 0 <= i < |f.calls| ==> f.calls[i].0 in nodes)
    && f.heuristic <= nodes.Keys
  }

  ghost predicate NoEmptyFacts(f: Facts) {
    NoEmptyBucket(f.imports) && NoEmptyBucket(f.producers) && NoEmptyBucket(f.consumers)
  }

  /** One retained bucket per touched key; an emptied bucket is dropped. */
  method Unlist(lib: Lib, a: Attribute, nodes: Table, bound: nat, index: Buckets, keys: set<string>, stale: set<Id>)
    returns (r: Buckets)
    requires CoherentBut(lib, a, nodes, bound, index, stale)
    requires Touches(lib, a, nodes, stale, keys)
    ensures Coherent(lib, a, nodes - stale, bound, r)
  {
    hide Coherent, CoherentBut, Touches;
    assert NoEmptyBucket(index) by { NoneEmpty(lib, a, nodes, bound, index, stale); }
    r := index;
    var todo := keys;
    while todo != {}
      invariant todo <= keys
      invariant forall k :: At(r, k) == if k in keys - todo then Retain(At(index, k), stale) else At(index, k)
      invariant NoEmptyBucket(r)
    {
      var key :| key in todo;
      r := RetainBucket(r, key, stale);
      todo := todo - {key};
    }
    Unlisted(lib, a, nodes, bound, index, r, keys, stale);
  }

  /** One bucket without the stale ids. */
  function RetainBucket(index: Buckets, key: string, stale: set<Id>): (r: Buckets)
    requires NoEmptyBucket(index)
    ensures forall k :: At(r, k) == if k == key then Retain(At(index, k), stale) else At(index, k)
    ensures NoEmptyBucket(r)
  {
    if key in index then
      var ids := Retain(index[key], stale);
      if ids == [] then index - {key} else index[key := ids]
    else index
  }

  lemma NoneEmpty(lib: Lib, a: Attribute, nodes: Table, bound: nat, index: Buckets, stale: set<Id>)
    requires CoherentBut(lib, a, nodes, bound, index, stale)
    ensures NoEmptyBucket(index)
  {
    hide Bucket;
  }

  /** Retaining only the keys a removed node is listed under keeps the index coherent with the smaller table. */
  lemma Unlisted(lib: Lib, a: Attribute, nodes: Table, bound: nat, index: Buckets, index': Buckets,
                 keys: set<string>, stale: set<Id>)
    requires CoherentBut(lib, a, nodes, bound, index, stale)
    requires Touches(lib, a, nodes, stale, keys)
    requires forall k :: At(index', k) == if k in keys then Retain(At(index, k), stale) else At(index, k)
    requires NoEmptyBucket(index')
    ensures Coherent(lib, a, nodes - stale, bound, index')
  {
    forall k ensures At(index', k) == Bucket(lib, a, k, nodes - stale, bound) {
      var b := Bucket(lib, a, k, nodes, bound);
      BucketRetain(lib, a, k, nodes, stale, bound);
      if k !in index {
        RetainAll(b, stale);
      } else if k !in keys {
        forall id | id in b ensures id !in stale {
          BucketMember(lib, a, k, nodes, bound, id);
        }
        RetainNone(b, stale);
      }
    }
  }

  /** The index after listing node `n` under its attribute: the pushes `add_node` makes. */
  function Listed(lib: Lib, a: Attribute, index: Buckets, n: Node, id: Id): Buckets {
    match a
    case ByName =>
      var named := Push(index, n.name, id);
      if StreamLike(n.kind) then Push(named, lib.lower(n.name), id) else named
    case ByPackage => if n.package != "" then Push(index, n.package, id) else index
    case ByFqcn => if Grpc(n.kind) || n.package != "" then Push(index, n.package + "/" + n.name, id) else index
    case ByFile => Push(index, n.file, id)
  }

  lemma ListedCoherent(lib: Lib, a: Attribute, nodes: Table, id: Id, n: Node, index: Buckets)
    requires Coherent(lib, a, nodes, id, index)
    ensures Coherent(lib, a, nodes[id := n], id + 1, Listed(lib, a, index, n, id))
  {
    var index' := Listed(lib, a, index, n, id);
    assert NoEmptyBucket(index');
    forall k ensures At(index', k) == Bucket(lib, a, k, nodes[id := n], id + 1) {
      hide Bucket;
      BucketAppend(lib, a, k, nodes, id, n);
      ListedAt(lib, a, index, n, id, k);
    }
  }

  lemma ListedAt(lib: Lib, a: Attribute, index: Buckets, n: Node, id: Id, k: string)
    ensures At(Listed(lib, a, index, n, id), k) == At(index, k) + Repeat(id, Multiplicity(lib, a, n, k))
  {
    assert Repeat(id, 0) == [] && Repeat(id, 1) == [id] && Repeat(id, 2) == [id] + [id];
  }

  /** The index keys the stale nodes are listed under, and the table without those nodes. */
  method TakeOut(lib: Lib, nodes: Table, stale: set<Id>)
    returns (rest: Table, byName: set<string>, byPackage: set<string>, byFqcn: set<string>, byFile: set<string>)
    ensures rest == nodes - stale
    ensures Touches(lib, ByName, nodes, stale, byName)
    ensures Touches(lib, ByPackage, nodes, stale, byPackage)
    ensures Touches(lib, ByFqcn, nodes, stale, byFqcn)
    ensures Touches(lib, ByFile, nodes, stale, byFile)
  {
    rest, byName, byPackage, byFqcn, byFile := nodes, {}, {}, {}, {};
    var todo := stale;
    while todo != {}
      invariant todo <= stale
      invariant rest == nodes - (stale - todo)
      invariant Touches(lib, ByName, nodes, stale - todo, byName)
      invariant Touches(lib, ByPackage, nodes, stale - todo, byPackage)
      invariant Touches(lib, ByFqcn, nodes, stale - todo, byFqcn)
      invariant Touches(lib, ByFile, nodes, stale - todo, byFile)
    {
      var id :| id in todo;
      todo := todo - {id};
      if id in rest {
        var node := rest[id];
        rest := rest - {id};
        if StreamLike(node.kind) {
          byName := byName + {lib.lower(node.name)};
        }
        if node.package != "" {
          byPackage := byPackage + {node.package};
        }
        if Grpc(node.kind) || node.package != "" {
          byFqcn := byFqcn + {node.package + "/" + node.name};
        }
        byName := byName + {node.name};
        byFile := byFile + {node.file};
      }
    }
    assert stale - todo == stale;
  }

  /** The ids listed under any of the files, and the file index without those files. */
  method TakeFiles(lib: Lib, nodes: Table, bound: nat, index: Buckets, files: set<string>)
    returns (stale: set<Id>, kept: Buckets)
    requires Below(nodes, bound) && Coherent(lib, ByFile, nodes, bound, index)
    ensures stale == DeclaredIn(nodes, files)
    ensures CoherentBut(lib, ByFile, nodes, bound, kept, stale)
    ensures stale == {} ==> kept == index
  {
    hide Bucket, Coherent;
    stale, kept := {}, index;
    var todo := files;
    FileBuckets(lib, nodes, bound, index);
    while todo != {}
      invariant todo <= files
      invariant kept == index - (files - todo)
      invariant stale == DeclaredIn(nodes, files - todo)
    {
      var path :| path in todo;
      assert (set id | id in At(index, path)) == DeclaredIn(nodes, {path});
      if path in kept {
        stale := stale + set id | id in kept[path];
        kept := kept - {path};
      }
      assert files - (todo - {path}) == files - todo + {path};
      todo := todo - {path};
    }
    assert files - todo == files;
    FilesTaken(lib, nodes, bound, index, files);
  }

  lemma FileBuckets(lib: Lib, nodes: Table, bound: nat, index: Buckets)
    requires Below(nodes, bound) && Coherent(lib, ByFile, nodes, bound, index)
    ensures forall k, id :: id in At(index, k) <==> id in nodes && nodes[id].file == k
  {
    forall k, id: Id {
      BucketMember(lib, ByFile, k, nodes, bound, id);
    }
  }

  lemma FilesTaken(lib: Lib, nodes: Table, bound: nat, index: Buckets, files: set<string>)
    requires Below(nodes, bound) && Coherent(lib, ByFile, nodes, bound, index)
    ensures CoherentBut(lib, ByFile, nodes, bound, index - files, DeclaredIn(nodes, files))
    ensures DeclaredIn(nodes, files) == {} ==> index - files == index
  {
    hide Bucket;
    FileBuckets(lib, nodes, bound, index);
    forall k ensures At(index, k) == Bucket(lib, ByFile, k, nodes, bound) {}
    if DeclaredIn(nodes, files) == {} {
      forall k | k in index ensures k !in files {
        var id := index[k][0];
        assert id in At(index, k);
        assert id !in DeclaredIn(nodes, files);
      }
    }
  }

  /** `keys` covers every key a stale node is listed under. */
  ghost predicate Touches(lib: Lib, a: Attribute, nodes: Table, stale: set<Id>, keys: set<string>) {
    forall id, k :: id in stale && id in nodes && Multiplicity(lib, a, nodes[id], k) > 0 ==> k in keys
  }

  /** An index is coherent, except that buckets holding only stale ids may already be gone. */
  ghost predicate CoherentBut(lib: Lib, a: Attribute, nodes: Table, bound: nat, index: Buckets, stale: set<Id>) {
    && NoEmptyBucket(index)
    && (forall k :: k in index ==> index[k] == Bucket(lib, a, k, nodes, bound))
    && (forall k :: k !in index ==> forall id :: id in Bucket(lib, a, k, nodes, bound) ==> id in stale)
  }

  class ContractGraph {
    const lib: Lib
    var nodes: Table
    var edges: seq<Edge>
    var nameToNodes: Buckets
    var packageToNodes: Buckets
    var fileToNodes: Buckets
    var fqcnToNode: Buckets
    var reverseDeps: Buckets
    var topicProducers: Buckets
    var topicConsumers: Buckets
    var rpcCalls: seq<(Id, string)>
    var heuristicTopicNodes: set<Id>
    var handlerRpcNames: map<Id, string>
    var nextNodeId: nat

    /** Each attribute index is the one recomputed from the node table, and no fact bucket is empty. */
    ghost predicate Valid()
      reads this
    {
      && Below(nodes, nextNodeId)
      && Coherent(lib, ByName, nodes, nextNodeId, nameToNodes)
      && Coherent(lib, ByPackage, nodes, nextNodeId, packageToNodes)
      && Coherent(lib, ByFqcn, nodes, nextNodeId, fqcnToNode)
      && Coherent(lib, ByFile, nodes, nextNodeId, fileToNodes)
      && NoEmptyFacts(Recorded())
    }

    function Recorded(): Facts
      reads this
    {
      Facts(reverseDeps, topicProducers, topicConsumers, rpcCalls, heuristicTopicNodes)
    }

    constructor (lib: Lib)
      ensures Valid()
      ensures this.lib == lib && nodes == map[] && edges == [] && nextNodeId == 0
      ensures Recorded() == Facts(map[], map[], map[], [], {})
    {
      this.lib := lib;
      nodes, edges, nextNodeId := map[], [], 0;
      nameToNodes, packageToNodes, fileToNodes, fqcnToNode := map[], map[], map[], map[];
      reverseDeps, topicProducers, topicConsumers := map[], map[], map[];
      rpcCalls, heuristicTopicNodes, handlerRpcNames := [], {}, map[];
    }

    method AddNode(node: Node) returns (id: Id)
      requires Valid()
      modifies `nodes, `nextNodeId, `nameToNodes, `packageToNodes, `fileToNodes, `fqcnToNode
      ensures Valid()
      ensures id == old(nextNodeId) && nextNodeId == id + 1
      ensures nodes == old(nodes)[id := node]
    {
      hide Coherent, Listed, NoEmptyFacts;
      id := nextNodeId;
      nextNodeId := nextNodeId + 1;
      nameToNodes := Listed(lib, ByName, nameToNodes, node, id);
      packageToNodes := Listed(lib, ByPackage, packageToNodes, node, id);
      fileToNodes := Listed(lib, ByFile, fileToNodes, node, id);
      fqcnToNode := Listed(lib, ByFqcn, fqcnToNode, node, id);
      nodes := nodes[id := node];
      ListedCoherent(lib, ByName, old(nodes), id, node, old(nameToNodes));
      ListedCoherent(lib, ByPackage, old(nodes), id, node, old(packageToNodes));
      ListedCoherent(lib, ByFqcn, old(nodes), id, node, old(fqcnToNode));
      ListedCoherent(lib, ByFile, old(nodes), id, node, old(fileToNodes));
    }

    method AddDependency(consumer: Id, target: string)
      requires Valid()
      modifies `reverseDeps
      ensures Valid()
      ensures reverseDeps == Push(old(reverseDeps), target, consumer)
    {
      reverseDeps := Push(reverseDeps, target, consumer);
    }

    method AddProducer(producer: Id, topic: string)
      requires Valid()
      modifies `topicProducers
      ensures Valid()
      ensures topicProducers == Push(old(topicProducers), lib.topicKey(topic), producer)
    {
      topicProducers := Push(topicProducers, lib.topicKey(topic), producer);
    }

    method AddConsumer(consumer: Id, topic: string)
      requires Valid()
      modifies `topicConsumers
      ensures Valid()
      ensures topicConsumers == Push(old(topicConsumers), lib.topicKey(topic), consumer)
    {
      topicConsumers := Push(topicConsumers, lib.topicKey(topic), consumer);
    }

    method AddRpcCall(caller: Id, target: string)
      requires Valid()
      modifies `rpcCalls
      ensures Valid()
      ensures rpcCalls == old(rpcCalls) + [(caller, target)]
    {
      rpcCalls := rpcCalls + [(caller, target)];
    }

    method MarkHeuristicTopicNode(id: Id)
      requires Valid()
      modifies `heuristicTopicNodes
      ensures Valid()
      ensures heuristicTopicNodes == old(heuristicTopicNodes) + {id}
    {
      heuristicTopicNodes := heuristicTopicNodes + {id};
    }

    /**
     * Removes the stale nodes from the table and from every index keyed by one of their attributes.
     * The caller may already have dropped the file buckets whose nodes are all stale.
     */
    method RemoveNodes(stale: set<Id>)
      requires Below(nodes, nextNodeId)
      requires Coherent(lib, ByName, nodes, nextNodeId, nameToNodes)
      requires Coherent(lib, ByPackage, nodes, nextNodeId, packageToNodes)
      requires Coherent(lib, ByFqcn, nodes, nextNodeId, fqcnToNode)
      requires CoherentBut(lib, ByFile, nodes, nextNodeId, fileToNodes, stale)
      modifies `nodes, `nameToNodes, `packageToNodes, `fileToNodes, `fqcnToNode
      ensures nodes == old(nodes) - stale
      ensures Coherent(lib, ByName, nodes, nextNodeId, nameToNodes)
      ensures Coherent(lib, ByPackage, nodes, nextNodeId, packageToNodes)
      ensures Coherent(lib, ByFqcn, nodes, nextNodeId, fqcnToNode)
      ensures Coherent(lib, ByFile, nodes, nextNodeId, fileToNodes)
    {
      CoherentIsCoherentBut(lib, ByName, nodes, nextNodeId, nameToNodes, stale);
      CoherentIsCoherentBut(lib, ByPackage, nodes, nextNodeId, packageToNodes, stale);
      CoherentIsCoherentBut(lib, ByFqcn, nodes, nextNodeId, fqcnToNode, stale);
      hide Coherent, CoherentBut, Touches;
      var rest, byName, byPackage, byFqcn, byFile := TakeOut(lib, nodes, stale);
      nameToNodes := Unlist(lib, ByName, nodes, nextNodeId, nameToNodes, byName, stale);
      packageToNodes := Unlist(lib, ByPackage, nodes, nextNodeId, packageToNodes, byPackage, stale);
      fqcnToNode := Unlist(lib, ByFqcn, nodes, nextNodeId, fqcnToNode, byFqcn, stale);
      fileToNodes := Unlist(lib, ByFile, nodes, nextNodeId, fileToNodes, byFile, stale);
      nodes := rest;
    }

    /** Purges every node declared in any of the files, and everything recorded about those nodes. */
    method PatchFiles(files: set<string>)
      requires Valid()
      modifies `nodes, `nameToNodes, `packageToNodes, `fileToNodes, `fqcnToNode, `reverseDeps, `topicProducers,
               `topicConsumers, `rpcCalls, `heuristicTopicNodes, `edges
      ensures Valid()
      ensures nodes == old(nodes) - DeclaredIn(old(nodes), files)
      ensures Recorded() == RetainFacts(old(Recorded()), DeclaredIn(old(nodes), files))
      ensures edges == RetainEdges(old(edges), DeclaredIn(old(nodes), files))
    {
      hide Coherent, CoherentBut, NoEmptyFacts, DeclaredIn, Below, RetainFacts, RetainEdges, Bucket;
      var stale, kept := TakeFiles(lib, nodes, nextNodeId, fileToNodes, files);
      fileToNodes := kept;
      if stale != {} {
        RemoveNodes(stale);
        Forget(stale);
        StillBelow(old(nodes), nodes, nextNodeId);
      } else {
        NothingStale(Recorded(), edges);
        assert nodes == nodes - {};
      }
    }

    /** Drops everything recorded or derived about the stale nodes. */
    method Forget(stale: set<Id>)
      modifies `reverseDeps, `topicProducers, `topicConsumers, `rpcCalls, `heuristicTopicNodes, `edges
      ensures Recorded() == RetainFacts(old(Recorded()), stale)
      ensures NoEmptyFacts(Recorded())
      ensures edges == RetainEdges(old(edges), stale)
    {
      reverseDeps := RetainBuckets(reverseDeps, stale);
      topicProducers := RetainBuckets(topicProducers, stale);
      topicConsumers := RetainBuckets(topicConsumers, stale);
      rpcCalls := RetainCalls(rpcCalls, stale);
      heuristicTopicNodes := heuristicTopicNodes - stale;
      edges := RetainEdges(edges, stale);
    }

    /** What every run keeps: coherent indices, hubs only in their package, and facts only about live source nodes. */
    ghost predicate Sound()
      reads this
    {
      && Valid() && LibOk(lib) && HubsOk(lib, nodes)
      && FactsLive(Recorded(), Sources(nodes)) && KeysFolded(lib, Recorded())
    }

    /** The hub of a topic key: the one already in the table, or a new one. */
    method EnsureHub(key: string) returns (id: Id)
      requires Valid() && HubsOk(lib, nodes) && lib.lower(key) == key
      modifies `nodes, `nextNodeId, `nameToNodes, `packageToNodes, `fileToNodes, `fqcnToNode
      ensures Valid() && HubsOk(lib, nodes)
      ensures IsHubOf(nodes, key, id)
      ensures nodes == old(nodes)[id := Hub(key)]
      ensures old(id in nodes) ==> old(nodes)[id] == Hub(key)
      ensures old(nextNodeId) <= nextNodeId && (id in old(nodes) || old(nextNodeId) <= id)
    {
      hide Coherent, NoEmptyFacts;
      var existing := FindHub(lib, nodes, nextNodeId, nameToNodes, key);
      if existing.Some? {
        id := existing.value;
        assert nodes == nodes[id := Hub(key)];
      } else {
        id := AddNode(Hub(key));
        NewHubOk(lib, old(nodes), id, key);
      }
    }

    /** Removes the hubs whose topic has neither producer nor consumer any more. */
    method DropStaleHubs(live: set<string>)
      requires Valid() && HubsOk(lib, nodes)
      modifies `nodes, `nameToNodes, `packageToNodes, `fileToNodes, `fqcnToNode
      ensures Valid() && HubsOk(lib, nodes)
      ensures Sources(nodes) == Sources(old(nodes))
      ensures forall id ::
        id in nodes <==> id in old(nodes) && (old(nodes)[id].package == BUS ==> old(nodes)[id].name in live)
      ensures forall id :: id in nodes ==> nodes[id] == old(nodes)[id]
    {
      hide Coherent, NoEmptyFacts, NoEmptyBucket;
      var stale := set id
        | id in nodes && nodes[id].package == BUS && StreamLike(nodes[id].kind) && nodes[id].name !in live;
      CoherentIsCoherentBut(lib, ByFile, nodes, nextNodeId, fileToNodes, stale);
      RemoveNodes(stale);
    }

    /** Stages 2 and 3: one hub per topic key, with its edges. */
    method LinkTopics(topics: seq<string>, log: Log) returns (r: Log)
      requires Sound() && log.Ok() && log.Lacks(Produces) && log.Lacks(Consumes)
      requires StrictlySorted(topics) && forall key :: key in topics <==> key in TopicKeys(Recorded())
      requires forall id :: id in nodes && nodes[id].package == BUS ==> nodes[id].name in TopicKeys(Recorded())
      modifies `nodes, `nextNodeId, `nameToNodes, `packageToNodes, `fileToNodes, `fqcnToNode
      ensures Sound() && HubsExact(nodes, Recorded())
      ensures Sources(nodes) == Sources(old(nodes))
      ensures Extends(old(nodes), nodes) && OnlyNew(old(nodes), old(nextNodeId), nodes)
      ensures Linked(nodes, Recorded(), topics, |topics|, log, r)
    {
      hide Coherent, NoEmptyFacts, NoEmptyBucket, IsPattern, TopicLoop, HubsOk, FactsLive, KeysFolded, TopicKeys,
           HubsExact, Sources, TopicEdge, OnlyHub, Untouched, StrictlySorted;
      var f := Recorded();
      var subjects := ConcreteSubjects(topicProducers);
      r := log;
      TopicLoopStart(lib, nodes, f, topics, log);
      for i := 0 to |topics|
        invariant Valid() && Recorded() == f
        invariant old(nextNodeId) <= nextNodeId && OnlyNew(old(nodes), old(nextNodeId), nodes)
        invariant TopicLoop(lib, old(nodes), nodes, f, topics, i, log, r)
      {
        ghost var before := nodes;
        BeforeHub(lib, old(nodes), nodes, f, topics, i, log, r);
        var hub := EnsureHub(topics[i]);
        AfterHub(lib, old(nodes), before, nodes, f, topics, i, hub, log, r);
        ghost var r0 := r;
        r := LinkTopic(nodes, f, topics[i], hub, subjects, r);
        AfterLink(lib, old(nodes), before, nodes, f, topics, i, hub, log, r0, r);
      }
      TopicLoopEnd(lib, old(nodes), nodes, f, topics, log, r);
    }

    /** Drops stale hubs, then gives every topic key its hub and its edges. */
    method RefreshHubs(log: Log) returns (r: Log)
      requires Sound() && log.Ok() && log.Lacks(Produces) && log.Lacks(Consumes)
      modifies `nodes, `nextNodeId, `nameToNodes, `packageToNodes, `fileToNodes, `fqcnToNode
      ensures Sound() && HubsExact(nodes, Recorded())
      ensures Sources(nodes) == Sources(old(nodes))
      ensures KeepsLive(old(nodes), nodes, Recorded())
      ensures HubsLinked(nodes, Recorded(), log, r)
    {
      hide Coherent, NoEmptyFacts, NoEmptyBucket, AnyHubEdge, Linked, Sources, HubsOk, HubsExact, FactsLive, KeysFolded,
           TopicKeys, StrictlySorted;
      var live := TopicKeys(Recorded());
      var topics := SortedKeys(live);
      DropStaleHubs(live);
      r := LinkTopics(topics, log);
      AllLinked(nodes, Recorded(), topics, log, r);
    }

    /** Clears the edges and derives them all afresh from the recorded facts. */
    method ReconcileEdges()
      requires Sound()
      modifies `nodes, `nextNodeId, `nameToNodes, `packageToNodes, `fileToNodes, `fqcnToNode, `edges, `handlerRpcNames
      ensures Sound() && HubsExact(nodes, Recorded())
      ensures Sources(nodes) == Sources(old(nodes))
      ensures KeepsLive(old(nodes), nodes, Recorded())
      ensures Distinct(edges)
      ensures forall e :: e in edges <==> DerivedEdge(lib, old(nodes), nodes, Recorded(), e)
      ensures forall id :: HandlerPass.Find(handlerRpcNames, id) == HandlerRpc(lib, nodes, rpcCalls, id)
    {
      hide Coherent, NoEmptyFacts, NoEmptyBucket, ImportEdge, HandlerRpc, Sources, HubsOk, HubsExact, FactsLive,
           KeysFolded, TopicKeys, DerivedEdge, Distinct, HubsLinked, KeepsLive;
      StartOk();
      var imported := ReconcileImports(Lookup(lib, nodes, nameToNodes, packageToNodes, fqcnToNode), nextNodeId,
        reverseDeps, Start);
      var linked := RefreshHubs(imported);
      HubsLinkedKinds(nodes, Recorded(), imported, linked);
      edges, handlerRpcNames := LinkRpcs(lib, old(nodes), nodes, nextNodeId, Recorded(), imported, linked);
    }
  }

  /** Everything but the hubs of dead keys is kept, and no id is given to another node. */
  ghost predicate KeepsLive(before: Table, after: Table, f: Facts) {
    && (forall id :: id in before && (before[id].package == BUS ==> before[id].name in TopicKeys(f)) ==>
         id in after && after[id] == before[id])
    && (forall id :: id in before && id in after ==> after[id] == before[id])
  }

  /** The log with every hub's edges added. */
  ghost predicate HubsLinked(nodes: Table, f: Facts, imported: Log, linked: Log) {
    && linked.Ok() && imported.edges <= linked.edges
    && (forall e :: e in linked.edges <==> e in imported.edges || AnyHubEdge(nodes, f, e))
    && (forall k :: k in linked.seen && k !in imported.seen ==> k.2 == Produces || k.2 == Consumes)
  }

  lemma HubsLinkedKinds(nodes: Table, f: Facts, imported: Log, linked: Log)
    requires HubsLinked(nodes, f, imported, linked) && imported.Lacks(Implements) && imported.Lacks(CallsRpc)
    ensures linked.Ok() && linked.Lacks(Implements) && linked.Lacks(CallsRpc)
  {
    hide AnyHubEdge, Sources, TopicKeys;
  }

  /** The two RPC stages, and the edges of all four together. */
  method LinkRpcs(lib: Lib, ghost pre: Table, nodes: Table, bound: nat, f: Facts, ghost imported: Log, linked: Log)
    returns (edges: seq<Edge>, names: map<Id, string>)
    requires LibOk(lib) && Below(nodes, bound) && linked.Ok() && linked.Lacks(Implements) && linked.Lacks(CallsRpc)
    requires (forall e :: e in imported.edges <==> ImportEdge(lib, pre, f.imports, e))
    requires HubsLinked(nodes, f, imported, linked)
    ensures Distinct(edges)
    ensures forall e :: e in edges <==> DerivedEdge(lib, pre, nodes, f, e)
    ensures forall id :: HandlerPass.Find(names, id) == HandlerRpc(lib, nodes, f.calls, id)
  {
    hide ImportEdge, AnyHubEdge, ImplementsEdge, CallEdge, HandlerRpc, Sources, TopicKeys, DerivedEdge, Distinct;
    var log: Log;
    log, names := HandlerPass.ReconcileHandlers(lib, nodes, bound, f.calls, linked);
    ghost var implemented := log;
    log := CallPass.ReconcileCalls(lib, nodes, bound, f.calls, names, log);
    edges := log.edges;
    Assemble(lib, pre, nodes, f, imported, linked, implemented, log);
  }

  /** The four stages together emit the derived edges. */
  lemma Assemble(lib: Lib, pre: Table, nodes: Table, f: Facts, imported: Log, linked: Log, implemented: Log, log: Log)
    requires log.Ok() && linked.edges <= implemented.edges <= log.edges
    requires forall e :: e in imported.edges <==> ImportEdge(lib, pre, f.imports, e)
    requires forall e :: e in linked.edges <==> e in imported.edges || AnyHubEdge(nodes, f, e)
    requires forall e :: e in implemented.edges <==> e in linked.edges || ImplementsEdge(lib, nodes, f.calls, e)
    requires forall e :: e in log.edges <==> e in implemented.edges || CallEdge(lib, nodes, f.calls, e)
    ensures Distinct(log.edges)
    ensures forall e :: e in log.edges <==> DerivedEdge(lib, pre, nodes, f, e)
  {
    hide ImportEdge, AnyHubEdge, ImplementsEdge, CallEdge, Sources, TopicKeys;
  }

  /** The first hub of the key in its name bucket. */
  method FindHub(lib: Lib, nodes: Table, ghost bound: nat, names: Buckets, key: string) returns (id: Option<Id>)
    requires Below(nodes, bound) && Coherent(lib, ByName, nodes, bound, names) && HubsOk(lib, nodes)
    ensures id.Some? ==> IsHubOf(nodes, key, id.value)
    ensures id.None? ==> forall x :: !IsHubOf(nodes, key, x)
  {
    hide Bucket;
    var ids := At(names, key);
    for i := 0 to |ids|
      invariant forall j :: 0 <= j < i ==> !IsHubOf(nodes, key, ids[j])
    {
      var x := ids[i];
      BucketMember(lib, ByName, key, nodes, bound, x);
      assert x in ids && ids == Bucket(lib, ByName, key, nodes, bound);
      if nodes[x].package == BUS && nodes[x].kind.EventStream? {
        return Some(x);
      }
    }
    forall x: Id {
      BucketMember(lib, ByName, key, nodes, bound, x);
    }
    return None;
  }

  lemma NewHubOk(lib: Lib, nodes: Table, id: Id, key: string)
    requires HubsOk(lib, nodes) && id !in nodes && lib.lower(key) == key
    requires forall x :: !IsHubOf(nodes, key, x)
    ensures HubsOk(lib, nodes[id := Hub(key)])
  {
    forall x | x in nodes && nodes[x].package == BUS ensures nodes[x].name != key {
      assert !IsHubOf(nodes, key, x);
    }
  }

  lemma CoherentIsCoherentBut(lib: Lib, a: Attribute, nodes: Table, bound: nat, index: Buckets, stale: set<Id>)
    requires Coherent(lib, a, nodes, bound, index)
    ensures CoherentBut(lib, a, nodes, bound, index, stale)
  {
    hide Bucket;
    forall k ensures At(index, k) == Bucket(lib, a, k, nodes, bound) {}
  }

  /** Every node is one of `pre` or has a new id. */
  ghost predicate OnlyNew(pre: Table, bound: nat, nodes: Table) {
    forall id :: id in nodes ==> id in pre || bound <= id
  }

  /** Every node of `pre` is still there, unchanged. */
  ghost predicate Extends(pre: Table, nodes: Table) {
    forall id :: id in pre ==> id in nodes && nodes[id] == pre[id]
  }

  /** The table and the log once the hubs of the first `i` topics are in place. */
  ghost predicate TopicLoop(lib: Lib, pre: Table, nodes: Table, f: Facts, topics: seq<string>, i: nat, base: Log,
        r: Log)
    requires i <= |topics|
  {
    && HubsOk(lib, nodes) && Sources(nodes) == Sources(pre) && Extends(pre, nodes)
    && FactsLive(f, Sources(pre)) && KeysFolded(lib, f)
    && base.Ok() && base.Lacks(Produces) && base.Lacks(Consumes)
    && StrictlySorted(topics) && (forall key :: key in topics <==> key in TopicKeys(f))
    && (forall id :: id in nodes && nodes[id].package == BUS ==> nodes[id].name in TopicKeys(f))
    && (forall j :: 0 <= j < i ==> HasHub(nodes, topics[j]))
    && Linked(nodes, f, topics, i, base, r)
  }

  lemma TopicLoopStart(lib: Lib, nodes: Table, f: Facts, topics: seq<string>, base: Log)
    requires HubsOk(lib, nodes) && FactsLive(f, Sources(nodes)) && KeysFolded(lib, f)
    requires base.Ok() && base.Lacks(Produces) && base.Lacks(Consumes)
    requires StrictlySorted(topics) && forall key :: key in topics <==> key in TopicKeys(f)
    requires forall id :: id in nodes && nodes[id].package == BUS ==> nodes[id].name in TopicKeys(f)
    ensures TopicLoop(lib, nodes, nodes, f, topics, 0, base, base)
  {
    hide Linked, Sources, HubsOk;
    NothingLinked(nodes, f, topics, base);
  }

  lemma BeforeHub(lib: Lib, pre: Table, nodes: Table, f: Facts, topics: seq<string>, i: nat, base: Log, r: Log)
    requires i < |topics| && TopicLoop(lib, pre, nodes, f, topics, i, base, r)
    ensures HubsOk(lib, nodes) && lib.lower(topics[i]) == topics[i]
  {
    hide Linked, Sources, HubsOk, FactsLive, TopicKeys;
    assert topics[i] in topics;
  }

  /** Ensuring the next hub keeps the sources, the other hubs and what is linked. */
  lemma AfterHub(lib: Lib, pre: Table, nodes: Table, nodes': Table, f: Facts, topics: seq<string>, i: nat, hub: Id,
        base: Log, r: Log)
    requires i < |topics| && TopicLoop(lib, pre, nodes, f, topics, i, base, r)
    requires HubsOk(lib, nodes') && IsHubOf(nodes', topics[i], hub)
    requires nodes' == nodes[hub := Hub(topics[i])] && (hub in nodes ==> nodes[hub] == Hub(topics[i]))
    ensures Sources(nodes') == Sources(nodes) && Extends(pre, nodes')
    ensures r.Ok() && Untouched(r, hub) && Linked(nodes', f, topics, i, base, r)
    ensures forall e :: TopicEdge(nodes', f, topics[i], hub, e) == TopicEdge(Sources(nodes'), f, topics[i], hub, e)
    ensures forall id :: id in nodes' && nodes'[id].package == BUS ==> nodes'[id].name in TopicKeys(f)
    ensures forall j :: 0 <= j < i + 1 ==> HasHub(nodes', topics[j])
  {
    hide Linked, TopicEdge, TopicKeys, HubsOk, FactsLive, KeysFolded, Sources, Untouched;
    assert topics[i] in topics;
    HubTable(nodes, nodes', topics, i, hub);
    ListenersAreSources(f, pre, nodes', topics[i]);
    StillLinked(nodes, nodes', f, topics, i, base, r);
    NotYetTouched(lib, nodes', f, topics, i, base, r, hub);
    LinkedOk(nodes', f, topics, i, base, r);
  }

  lemma HubTable(nodes: Table, nodes': Table, topics: seq<string>, i: nat, hub: Id)
    requires i < |topics| && StrictlySorted(topics) && IsHubOf(nodes', topics[i], hub)
    requires nodes' == nodes[hub := Hub(topics[i])] && (hub in nodes ==> nodes[hub] == Hub(topics[i]))
    requires forall j :: 0 <= j < i ==> HasHub(nodes, topics[j])
    ensures Sources(nodes') == Sources(nodes)
    ensures forall j, id :: 0 <= j < i ==> (IsHubOf(nodes, topics[j], id) <==> IsHubOf(nodes', topics[j], id))
    ensures forall j :: 0 <= j < i + 1 ==> HasHub(nodes', topics[j])
  {
    forall j | 0 <= j < i ensures topics[j] != topics[i] {
      LessTotal(topics[j], topics[i]);
    }
    forall j, id | 0 <= j < i ensures IsHubOf(nodes, topics[j], id) <==> IsHubOf(nodes', topics[j], id) {}
    forall j | 0 <= j < i + 1 ensures HasHub(nodes', topics[j]) {
      if j < i {
        var id :| IsHubOf(nodes, topics[j], id);
        assert IsHubOf(nodes', topics[j], id);
      }
    }
  }

  lemma ListenersAreSources(f: Facts, pre: Table, nodes: Table, key: string)
    requires FactsLive(f, Sources(pre)) && Sources(nodes) == Sources(pre)
    ensures forall hub, e :: TopicEdge(nodes, f, key, hub, e) == TopicEdge(Sources(nodes), f, key, hub, e)
    ensures NotTruncated(nodes, f, key) == NotTruncated(Sources(nodes), f, key)
  {
    hide TopicEdge;
    forall id | id in At(f.consumers, key)
      ensures id in nodes && id in Sources(nodes) && Sources(nodes)[id] == nodes[id] {
      assert id in Sources(pre);
    }
    SameListeners(nodes, Sources(nodes), f, key);
  }

  lemma LinkedOk(nodes: Table, f: Facts, topics: seq<string>, i: nat, base: Log, r: Log)
    requires i <= |topics| && Linked(nodes, f, topics, i, base, r)
    ensures r.Ok()
  {
  }

  lemma AfterLink(lib: Lib, pre: Table, nodes: Table, nodes': Table, f: Facts, topics: seq<string>, i: nat, hub: Id,
        base: Log, r: Log, r': Log)
    requires i < |topics| && TopicLoop(lib, pre, nodes, f, topics, i, base, r)
    requires HubsOk(lib, nodes') && IsHubOf(nodes', topics[i], hub)
    requires nodes' == nodes[hub := Hub(topics[i])] && (hub in nodes ==> nodes[hub] == Hub(topics[i]))
    requires r'.Ok() && r.edges <= r'.edges && OnlyHub(r, r', hub)
    requires forall e :: e in r'.edges <==> e in r.edges || TopicEdge(nodes', f, topics[i], hub, e)
    ensures TopicLoop(lib, pre, nodes', f, topics, i + 1, base, r')
  {
    hide Linked, TopicEdge, TopicKeys, HubsOk, Sources, FactsLive, KeysFolded, OnlyHub;
    AfterHub(lib, pre, nodes, nodes', f, topics, i, hub, base, r);
    LinkedOneMore(lib, nodes', f, topics, i, base, r, r', hub);
  }

  lemma TopicLoopEnd(lib: Lib, pre: Table, nodes: Table, f: Facts, topics: seq<string>, base: Log, r: Log)
    requires TopicLoop(lib, pre, nodes, f, topics, |topics|, base, r)
    ensures HubsOk(lib, nodes) && Sources(nodes) == Sources(pre) && Extends(pre, nodes)
    ensures FactsLive(f, Sources(nodes)) && KeysFolded(lib, f)
    ensures HubsExact(nodes, f) && Linked(nodes, f, topics, |topics|, base, r)
  {
    hide Linked, TopicKeys, HubsOk, Sources, FactsLive, KeysFolded, IsHubOf;
    forall key | key in TopicKeys(f) ensures HasHub(nodes, key) {
      assert key in topics;
      var j :| 0 <= j < |topics| && topics[j] == key;
    }
  }

  /** The ids of the nodes declared in any of the files. */
  function DeclaredIn(nodes: Table, files: set<string>): set<Id> {
    set id | id in nodes && nodes[id].file in files
  }

  lemma StillBelow(nodes: Table, nodes': Table, bound: nat)
    requires Below(nodes, bound) && nodes'.Keys <= nodes.Keys
    ensures Below(nodes', bound)
  {
  }

  lemma NothingStale(f: Facts, edges: seq<Edge>)
    requires NoEmptyFacts(f)
    ensures RetainFacts(f, {}) == f
    ensures RetainEdges(edges, {}) == edges
  {
    AllBuckets(f.imports);
    AllBuckets(f.producers);
    AllBuckets(f.consumers);
    AllCalls(f.calls);
    AllEdges(edges);
  }

  lemma AllBuckets(index: Buckets)
    requires NoEmptyBucket(index)
    ensures RetainBuckets(index, {}) == index
  {
    forall k | k in index ensures Retain(index[k], {}) == index[k] {
      RetainNone(index[k], {});
    }
  }

  lemma {:induction false} AllCalls(calls: seq<(Id, string)>)
    ensures RetainCalls(calls, {}) == calls
  {
    if calls != [] { AllCalls(calls[..|calls| - 1]); }
  }

  lemma {:induction false} AllEdges(edges: seq<Edge>)
    ensures RetainEdges(edges, {}) == edges
  {
    if edges != [] { AllEdges(edges[..|edges| - 1]); }
  }
}
