/** Full builds and incremental reloads of the graph. */
module Indexer {
  import opened GraphModel
  import opened Reconciled
  import opened Graph
  import opened Workspace

  /** Assigns ids to a file's nodes, in order. */
  method ApplyNodes(g: ContractGraph, fi: FileIndex) returns (ids: seq<Id>)
    requires g.Valid()
    modifies g`nodes, g`nextNodeId, g`nameToNodes, g`packageToNodes, g`fileToNodes, g`fqcnToNode
    ensures g.Valid()
    ensures g.nodes == Block(old(g.nodes), old(g.nextNodeId), fi.nodes)
    ensures g.nextNodeId == old(g.nextNodeId) + |fi.nodes|
    ensures |ids| == |fi.nodes| && forall k :: 0 <= k < |ids| ==> ids[k] == old(g.nextNodeId) + k
  {
    hide Coherent, NoEmptyFacts, Below, Block;
    NoBlock(g.nodes, g.nextNodeId);
    ids := [];
    assert fi.nodes[..0] == [];
    ghost var base := g.nextNodeId;
    for k := 0 to |fi.nodes|
      invariant g.Valid()
      invariant g.nextNodeId == base + k && g.nodes == Block(old(g.nodes), base, fi.nodes[..k])
      invariant |ids| == k && forall j :: 0 <= j < k ==> ids[j] == base + j
    {
      BlockStep(old(g.nodes), base, fi.nodes, k);
      var id := g.AddNode(fi.nodes[k]);
      ids := ids + [id];
    }
    assert fi.nodes[..|fi.nodes|] == fi.nodes;
  }

  lemma NoBlock(nodes: Table, base: Id)
    ensures Block(nodes, base, []) == nodes
  {
  }

  lemma BlockStep(nodes: Table, base: Id, ns: seq<Node>, k: nat)
    requires k < |ns|
    ensures Block(nodes, base, ns[..k + 1]) == Block(nodes, base, ns[..k])[base + k := ns[k]]
  {
    assert ns[..k + 1][..k] == ns[..k];
  }

  method ApplyDependencies(g: ContractGraph, fi: FileIndex, ids: seq<Id>, ghost base: Id)
    requires g.Valid() && |ids| == |fi.nodes| && forall k :: 0 <= k < |ids| ==> ids[k] == base + k
    requires forall i :: 0 <= i < |fi.dependencies| ==> fi.dependencies[i].0 < |fi.nodes|
    modifies g`reverseDeps
    ensures g.Valid() && g.reverseDeps == PushAll(old(g.reverseDeps), base, fi.dependencies)
  {
    hide Coherent, NoEmptyFacts, Below;
    for j := 0 to |fi.dependencies|
      invariant g.Valid() && g.reverseDeps == PushAll(old(g.reverseDeps), base, fi.dependencies[..j])
    {
      assert fi.dependencies[..j + 1][..j] == fi.dependencies[..j];
      g.AddDependency(ids[fi.dependencies[j].0], fi.dependencies[j].1);
    }
    assert fi.dependencies[..|fi.dependencies|] == fi.dependencies;
  }

  method ApplyProducers(g: ContractGraph, fi: FileIndex, ids: seq<Id>, ghost base: Id)
    requires g.Valid() && |ids| == |fi.nodes| && forall k :: 0 <= k < |ids| ==> ids[k] == base + k
    requires forall i :: 0 <= i < |fi.producers| ==> fi.producers[i].0 < |fi.nodes|
    modifies g`topicProducers
    ensures g.Valid() && g.topicProducers == PushAll(old(g.topicProducers), base, Topics(g.lib, fi.producers))
  {
    hide Coherent, NoEmptyFacts, Below;
    ghost var keyed := Topics(g.lib, fi.producers);
    for j := 0 to |fi.producers|
      invariant g.Valid() && g.topicProducers == PushAll(old(g.topicProducers), base, keyed[..j])
    {
      assert keyed[..j + 1][..j] == keyed[..j];
      g.AddProducer(ids[fi.producers[j].0], fi.producers[j].1);
    }
    assert keyed[..|keyed|] == keyed;
  }

  method ApplyConsumers(g: ContractGraph, fi: FileIndex, ids: seq<Id>, ghost base: Id)
    requires g.Valid() && |ids| == |fi.nodes| && forall k :: 0 <= k < |ids| ==> ids[k] == base + k
    requires forall i :: 0 <= i < |fi.consumers| ==> fi.consumers[i].0 < |fi.nodes|
    modifies g`topicConsumers
    ensures g.Valid() && g.topicConsumers == PushAll(old(g.topicConsumers), base, Topics(g.lib, fi.consumers))
  {
    hide Coherent, NoEmptyFacts, Below;
    ghost var keyed := Topics(g.lib, fi.consumers);
    for j := 0 to |fi.consumers|
      invariant g.Valid() && g.topicConsumers == PushAll(old(g.topicConsumers), base, keyed[..j])
    {
      assert keyed[..j + 1][..j] == keyed[..j];
      g.AddConsumer(ids[fi.consumers[j].0], fi.consumers[j].1);
    }
    assert keyed[..|keyed|] == keyed;
  }

  method ApplyCalls(g: ContractGraph, fi: FileIndex, ids: seq<Id>, ghost base: Id)
    requires g.Valid() && |ids| == |fi.nodes| && forall k :: 0 <= k < |ids| ==> ids[k] == base + k
    requires forall i :: 0 <= i < |fi.calls| ==> fi.calls[i].0 < |fi.nodes|
    modifies g`rpcCalls
    ensures g.Valid() && g.rpcCalls == old(g.rpcCalls) + Shift(base, fi.calls)
  {
    hide Coherent, NoEmptyFacts, Below;
    for j := 0 to |fi.calls|
      invariant g.Valid() && g.rpcCalls == old(g.rpcCalls) + Shift(base, fi.calls)[..j]
    {
      g.AddRpcCall(ids[fi.calls[j].0], fi.calls[j].1);
    }
    assert Shift(base, fi.calls)[..|fi.calls|] == Shift(base, fi.calls);
  }

  method ApplyHeuristics(g: ContractGraph, fi: FileIndex, ids: seq<Id>, ghost base: Id)
    requires g.Valid() && |ids| == |fi.nodes| && forall k :: 0 <= k < |ids| ==> ids[k] == base + k
    requires forall i :: 0 <= i < |fi.heuristic| ==> fi.heuristic[i] < |fi.nodes|
    modifies g`heuristicTopicNodes
    ensures g.Valid()
    ensures g.heuristicTopicNodes == old(g.heuristicTopicNodes) + set i | 0 <= i < |fi.heuristic| ::
      base + fi.heuristic[i]
  {
    hide Coherent, NoEmptyFacts, Below;
    for j := 0 to |fi.heuristic|
      invariant g.Valid()
      invariant g.heuristicTopicNodes == old(g.heuristicTopicNodes) + set i | 0 <= i < j :: base + fi.heuristic[i]
    {
      g.MarkHeuristicTopicNode(ids[fi.heuristic[j]]);
    }
  }

  method ApplyFacts(g: ContractGraph, fi: FileIndex, ids: seq<Id>, ghost base: Id, ghost path: string)
    requires g.Valid() && |ids| == |fi.nodes| && forall k :: 0 <= k < |ids| ==> ids[k] == base + k
    requires fi.Ok(path)
    modifies g`reverseDeps, g`topicProducers, g`topicConsumers, g`rpcCalls, g`heuristicTopicNodes
    ensures g.Valid() && g.Recorded() == Added(g.lib, old(g.Recorded()), base, fi)
  {
    hide Coherent, PushAll, NoEmptyFacts, Shift, Topics, Below;
    ApplyDependencies(g, fi, ids, base);
    ApplyProducers(g, fi, ids, base);
    ApplyConsumers(g, fi, ids, base);
    ApplyCalls(g, fi, ids, base);
    ApplyHeuristics(g, fi, ids, base);
  }

  /** Folds one file: its nodes get the next ids, and its facts are recorded under them. */
  method Apply(g: ContractGraph, fi: FileIndex, ghost path: string)
    requires g.Sound() && fi.Ok(path)
    modifies g
    ensures g.Sound()
    ensures g.nodes == Block(old(g.nodes), old(g.nextNodeId), fi.nodes)
    ensures g.Recorded() == Added(g.lib, old(g.Recorded()), old(g.nextNodeId), fi)
    ensures g.edges == old(g.edges) && g.nextNodeId == old(g.nextNodeId) + |fi.nodes|
    ensures Sources(g.nodes) == Block(Sources(old(g.nodes)), old(g.nextNodeId), fi.nodes)
  {
    hide Coherent, Block, HubsOk, FactsLive, KeysFolded, NoEmptyFacts, Sources, LibOk, Added, Below;
    ghost var base := g.nextNodeId;
    var ids := ApplyNodes(g, fi);
    ApplyFacts(g, fi, ids, base, path);
    AppliedSound(g.lib, old(g.nodes), old(g.Recorded()), base, path, fi);
  }

  lemma AppliedSound(lib: Lib, nodes: Table, f: Facts, base: Id, path: string, fi: FileIndex)
    requires Below(nodes, base) && LibOk(lib) && HubsOk(lib, nodes) && FactsLive(f, Sources(nodes))
    requires KeysFolded(lib, f) && fi.Ok(path)
    ensures Sources(Block(nodes, base, fi.nodes)) == Block(Sources(nodes), base, fi.nodes)
    ensures HubsOk(lib, Block(nodes, base, fi.nodes))
    ensures FactsLive(Added(lib, f, base, fi), Block(Sources(nodes), base, fi.nodes))
    ensures KeysFolded(lib, Added(lib, f, base, fi))
  {
    hide Block, PushAll, FactsLive, Sources, HubsOk;
    AddedLive(lib, f, base, path, fi, Sources(nodes));
    KeysPushed(lib, f.producers, base, fi.producers);
    KeysPushed(lib, f.consumers, base, fi.consumers);
    BlockSources(lib, nodes, base, path, fi);
  }

  lemma BlockSources(lib: Lib, nodes: Table, base: Id, path: string, fi: FileIndex)
    requires Below(nodes, base) && HubsOk(lib, nodes) && fi.Ok(path)
    ensures Sources(Block(nodes, base, fi.nodes)) == Block(Sources(nodes), base, fi.nodes)
    ensures HubsOk(lib, Block(nodes, base, fi.nodes))
  {
    hide Block;
    assert Sources(Block(nodes, base, fi.nodes)) == Block(Sources(nodes), base, fi.nodes);
  }

  lemma {:induction false} KeysPushed(lib: Lib, index: Buckets, base: Id, facts: seq<Local>)
    requires LibOk(lib) && forall key :: key in index ==> lib.lower(key) == key
    ensures forall key :: key in PushAll(index, base, Topics(lib, facts)) ==> lib.lower(key) == key
  {
    if facts != [] {
      KeysPushed(lib, index, base, facts[..|facts| - 1]);
      assert Topics(lib, facts)[..|facts| - 1] == Topics(lib, facts[..|facts| - 1]);
    }
  }
}
