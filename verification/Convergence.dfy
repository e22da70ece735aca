/** Any two up-to-date graphs of one workspace print the same canonical lines, whatever their history and ids. */
module Convergence {
  import opened Seqs
  import opened GraphModel
  import opened Records
  import opened EdgeLog
  import opened ImportPass
  import opened TopicPass
  import opened RpcMeaning
  import opened Reconciled
  import opened Graph
  import opened Workspace
  import opened Renaming
  import opened Capture
  import opened Canonical

  /** Sound, and holding exactly the edges a build from scratch derives. */
  ghost predicate UpToDate(lib: Lib, nodes: Table, bound: nat, f: Facts, edges: seq<Edge>) {
    && Below(nodes, bound) && HubsOk(lib, nodes) && HubsExact(nodes, f)
    && FactsLive(f, Sources(nodes)) && NoEmptyFacts(f)
    && Distinct(edges) && forall e :: e in edges <==> DerivedEdge(lib, Sources(nodes), nodes, f, e)
  }

  /** Each imported (package, name) pair is declared at most once. */
  ghost predicate UniqueImports(lib: Lib, src: Table, f: Facts) {
    forall t :: t in f.imports ==> ImportDeclaredOnce(lib, src, t)
  }

  // ------------------------------------------------------------------ edge ends are live

  lemma OutcomeLive(lib: Lib, nodes: Table, calls: seq<Call>, caller: Id, record: string)
    ensures CallOutcome(lib, nodes, calls, caller, record).1.ids <= nodes.Keys
  {
    hide AttemptOf, Skipped, MayAddService, IsHealthService;
  }

  lemma CallEdgeLive(lib: Lib, nodes: Table, f: Facts, e: Edge)
    requires FactsLive(f, nodes) && CallEdge(lib, nodes, f.calls, e)
    ensures e.from in nodes && e.to in nodes
  {
    hide CallOutcome;
    var records := CallsOf(f.calls, e.from);
    var j :| 0 <= j < |records| && CallYields(lib, nodes, f.calls, records, j, e);
    OutcomeLive(lib, nodes, f.calls, e.from, records[j]);
    CallsOfMember(f.calls, e.from);
    assert records[j] in records;
  }

  lemma HubEdgeLive(nodes: Table, f: Facts, e: Edge)
    requires FactsLive(f, nodes) && AnyHubEdge(nodes, f, e)
    ensures e.from in nodes && e.to in nodes
  {
    hide LeastSubject, Wildcard, Sources;
    var key :| key in TopicKeys(f) && HubEdge(nodes, f, key, e);
    var hub :| IsHubOf(nodes, key, hub) && TopicEdge(Sources(nodes), f, key, hub, e);
    HeardLive(f, nodes, key);
  }

  lemma FactsLiveUp(f: Facts, nodes: Table)
    requires FactsLive(f, Sources(nodes))
    ensures FactsLive(f, nodes)
  {
    forall id | id in Sources(nodes) ensures id in nodes {}
    forall key, id | id in At(f.imports, key) ensures id in nodes { assert id in Sources(nodes); }
    forall key, id | id in At(f.producers, key) ensures id in nodes { assert id in Sources(nodes); }
    forall key, id | id in At(f.consumers, key) ensures id in nodes { assert id in Sources(nodes); }
  }

  /** Both ends of every derived edge are live nodes. */
  lemma DerivedLive(lib: Lib, nodes: Table, f: Facts, e: Edge)
    requires FactsLive(f, Sources(nodes)) && DerivedEdge(lib, Sources(nodes), nodes, f, e)
    ensures e.from in nodes && e.to in nodes
  {
    hide ImportEdge, AnyHubEdge, CallEdge, FactsLive;
    FactsLiveUp(f, nodes);
    if ImportEdge(lib, Sources(nodes), f.imports, e) {
      EdgeLive(lib, Sources(nodes), f.imports, e);
    } else if AnyHubEdge(nodes, f, e) {
      HubEdgeLive(nodes, f, e);
    } else if CallEdge(lib, nodes, f.calls, e) {
      CallEdgeLive(lib, nodes, f, e);
    }
  }

  // ------------------------------------------------------------------ derivation commutes with renaming

  lemma HubEdgeIso(phi: map<Id, Id>, n1: Table, n2: Table, f1: Facts, f2: Facts, key: string, e: Edge)
    requires FactsIso(phi, n1, n2, f1, f2) && FactsLive(f1, Sources(n1)) && FactsLive(f2, Sources(n2))
    requires e.from in n1 && e.to in n1 && NotTruncated(Sources(n1), f1, key)
    ensures HubEdge(n1, f1, key, e) <==> HubEdge(n2, f2, key, Move(phi, e))
  {
    hide TopicEdge, FactsLive, SameBuckets, Sources, NotTruncated;
    ListenersAreSources(f1, n1, n1, key);
    ListenersAreSources(f2, n2, n2, key);
    if HubEdge(n1, f1, key, e) {
      var hub :| IsHubOf(n1, key, hub) && TopicEdge(Sources(n1), f1, key, hub, e);
      TopicEdgeIso(phi, n1, n2, f1, f2, key, hub, e);
      assert IsHubOf(n2, key, phi[hub]);
    }
    if HubEdge(n2, f2, key, Move(phi, e)) {
      var y :| IsHubOf(n2, key, y) && TopicEdge(Sources(n2), f2, key, y, Move(phi, e));
      var hub := Preimage(phi, n1, n2, y);
      TopicEdgeIso(phi, n1, n2, f1, f2, key, hub, e);
      assert IsHubOf(n1, key, hub);
    }
  }

  lemma TopicKeysIso(phi: map<Id, Id>, n1: Table, n2: Table, f1: Facts, f2: Facts)
    requires FactsIso(phi, n1, n2, f1, f2)
    ensures TopicKeys(f1) == TopicKeys(f2)
  {
    hide SameBuckets, Iso;
    KeysIso(phi, n1, n2, f1.producers, f2.producers);
    KeysIso(phi, n1, n2, f1.consumers, f2.consumers);
  }

  lemma SourceBuckets(phi: map<Id, Id>, n1: Table, b1: Buckets, b2: Buckets)
    requires SameBuckets(phi, n1, b1, b2)
    ensures SameBuckets(phi, Sources(n1), b1, b2)
  {
  }

  lemma ImportPartIso(phi: map<Id, Id>, lib: Lib, n1: Table, n2: Table, f1: Facts, f2: Facts, e: Edge)
    requires FactsIso(phi, n1, n2, f1, f2) && FactsLive(f1, Sources(n1)) && FactsLive(f2, Sources(n2))
    requires UniqueImports(lib, Sources(n1), f1) && e.from in n1 && e.to in n1
    ensures ImportEdge(lib, Sources(n1), f1.imports, e) <==> ImportEdge(lib, Sources(n2), f2.imports, Move(phi, e))
  {
    hide Hits, Targets, ImportDeclaredOnce, SameBuckets;
    SourcesIso(phi, n1, n2);
    SourceBuckets(phi, n1, f1.imports, f2.imports);
    if e.from in Sources(n1) {
      hide Iso, FactsLive, Sources;
      ImportEdgeIso(phi, lib, Sources(n1), Sources(n2), f1.imports, f2.imports, e);
    } else {
      assert e.from !in At(f1.imports, e.metadata);
      assert phi[e.from] !in Sources(n2);
      assert phi[e.from] !in At(f2.imports, e.metadata);
    }
  }

  lemma DerivedIso(phi: map<Id, Id>, lib: Lib, n1: Table, n2: Table, f1: Facts, f2: Facts, e: Edge)
    requires FactsIso(phi, n1, n2, f1, f2) && FactsLive(f1, Sources(n1)) && FactsLive(f2, Sources(n2))
    requires UniqueImports(lib, Sources(n1), f1) && NothingTruncated(Sources(n1), f1) && e.from in n1 && e.to in n1
    ensures DerivedEdge(lib, Sources(n1), n1, f1, e) <==> DerivedEdge(lib, Sources(n2), n2, f2, Move(phi, e))
  {
    ImportPartIso(phi, lib, n1, n2, f1, f2, e);
    TopicKeysIso(phi, n1, n2, f1, f2);
    forall key | key in TopicKeys(f1) ensures HubEdge(n1, f1, key, e) <==> HubEdge(n2, f2, key, Move(phi, e)) {
      HubEdgeIso(phi, n1, n2, f1, f2, key, e);
    }
    ImplementsEdgeIso(phi, lib, n1, n2, f1, f2, e);
    CallEdgeIso(phi, lib, n1, n2, f1, f2, e);
    hide ImportEdge, HubEdge, ImplementsEdge, CallEdge, FactsIso, FactsLive, UniqueImports, Sources, TopicKeys;
  }

  // ------------------------------------------------------------------ the renaming between two graphs of one workspace

  ghost function SourcePartner(w: Files, o1: map<Id, (string, nat)>, o2: map<Id, (string, nat)>, id: Id): (r: Id)
    requires id in o1 && HandleOk(w, o1[id]) && forall h :: HandleOk(w, h) ==> h in o2.Values
    ensures r in o2 && o2[r] == o1[id]
  {
    assert o1[id] in o2.Values;
    var y :| y in o2 && o2[y] == o1[id];
    y
  }

  ghost function HubPartner(n2: Table, key: string): (r: Id)
    requires HasHub(n2, key)
    ensures IsHubOf(n2, key, r)
  {
    var y :| IsHubOf(n2, key, y);
    y
  }

  ghost function SourceMap(w: Files, o1: map<Id, (string, nat)>, s1: Table, o2: map<Id, (string, nat)>,
        s2: Table): (phi: map<Id, Id>)
    requires Placed(w, o1, s1) && Placed(w, o2, s2)
    ensures phi.Keys == o1.Keys && forall id :: id in phi ==> phi[id] in o2 && o2[phi[id]] == o1[id]
  {
    map id | id in o1 :: SourcePartner(w, o1, o2, id)
  }

  ghost function HubMap(n1: Table, n2: Table, phiS: map<Id, Id>): (phi: map<Id, Id>)
    requires forall id :: id in n1 && id !in phiS ==> HasHub(n2, n1[id].name)
    ensures phi.Keys == n1.Keys
    ensures forall id :: id in n1 ==> if id in phiS then phi[id] == phiS[id] else IsHubOf(n2, n1[id].name, phi[id])
  {
    map id | id in n1 :: if id in phiS then phiS[id] else HubPartner(n2, n1[id].name)
  }

  /** The source nodes of the two graphs, place by place. */
  lemma SourceRenaming(lib: Lib, w: Files, s1: Table, f1: Facts, s2: Table, f2: Facts) returns (phi: map<Id, Id>)
    requires Represented(lib, w, s1, f1) && Represented(lib, w, s2, f2) && NoEmptyFacts(f1) && NoEmptyFacts(f2)
    ensures phi.Keys == s1.Keys && FactsIso(phi, s1, s2, f1, f2)
  {
    hide FactsLive, NoEmptyFacts, FactsOf, SourceMap, Placed, FactsIso;
    var o1: map<Id, (string, nat)> :| Represents(lib, w, o1, s1, f1);
    var o2: map<Id, (string, nat)> :| Represents(lib, w, o2, s2, f2);
    phi := SourceMap(w, o1, s1, o2, s2);
    PlacedKeys(w, o1, s1);
    SourcesRenamed(lib, w, o1, o2, s1, s2, f1, f2, phi);
  }

  lemma SourcesRenamed(lib: Lib, w: Files, o1: map<Id, (string, nat)>, o2: map<Id, (string, nat)>, s1: Table, s2: Table,
        f1: Facts, f2: Facts, phi: map<Id, Id>)
    requires Represents(lib, w, o1, s1, f1) && Represents(lib, w, o2, s2, f2) && NoEmptyFacts(f1) && NoEmptyFacts(f2)
    requires phi.Keys == o1.Keys && forall id :: id in phi ==> phi[id] in o2 && o2[phi[id]] == o1[id]
    ensures FactsIso(phi, s1, s2, f1, f2)
  {
    hide FactsOf, Placed, Iso, SameBuckets, FactsLive, NoEmptyFacts;
    PlacesRenamed(w, o1, o2, s1, s2, phi);
    SameFacts(lib, w, o1, o2, s1, s2, f1, f2, phi);
  }

  lemma PlacedKeys(w: Files, origin: map<Id, (string, nat)>, src: Table)
    requires Placed(w, origin, src)
    ensures origin.Keys == src.Keys
  {
  }

  lemma PlacesRenamed(w: Files, o1: map<Id, (string, nat)>, o2: map<Id, (string, nat)>, s1: Table, s2: Table,
        phi: map<Id, Id>)
    requires Placed(w, o1, s1) && Placed(w, o2, s2) && phi.Keys == o1.Keys
    requires forall id :: id in phi ==> phi[id] in o2 && o2[phi[id]] == o1[id]
    ensures Iso(phi, s1, s2)
  {
    forall y | y in s2 ensures y in phi.Values {
      assert HandleOk(w, o2[y]);
      var x :| x in o1 && o1[x] == o2[y];
      assert phi[x] == y;
    }
    forall i, j | i in phi && j in phi && phi[i] == phi[j] ensures i == j {
      assert o1[i] == o1[j];
    }
  }

  lemma SameFacts(lib: Lib, w: Files, o1: map<Id, (string, nat)>, o2: map<Id, (string, nat)>, s1: Table, s2: Table,
        f1: Facts, f2: Facts, phi: map<Id, Id>)
    requires Represents(lib, w, o1, s1, f1) && Represents(lib, w, o2, s2, f2)
    requires phi.Keys == o1.Keys && forall id :: id in phi ==> phi[id] in o2 && o2[phi[id]] == o1[id]
    ensures SameBuckets(phi, s1, f1.imports, f2.imports) && SameBuckets(phi, s1, f1.producers, f2.producers)
    ensures SameBuckets(phi, s1, f1.consumers, f2.consumers)
    ensures forall id :: id in s1 ==> CallsOf(f1.calls, id) == CallsOf(f2.calls, phi[id])
    ensures forall id :: id in s1 ==> (id in f1.heuristic <==> phi[id] in f2.heuristic)
  {
    hide Tally, CallsOf, Topics, FactsLive;
    forall id | id in s1
      ensures FactsOf(lib, w[o1[id].0], o1[id].1, f1, id) && FactsOf(lib, w[o1[id].0], o1[id].1, f2, phi[id]) {}
  }

  /** The renaming extended to hubs, key by key. */
  lemma FullRenaming(lib: Lib, n1: Table, f1: Facts, n2: Table, f2: Facts, phiS: map<Id, Id>) returns (phi: map<Id, Id>)
    requires HubsOk(lib, n1) && HubsOk(lib, n2) && HubsExact(n1, f1) && HubsExact(n2, f2)
    requires phiS.Keys == Sources(n1).Keys && FactsIso(phiS, Sources(n1), Sources(n2), f1, f2)
    ensures FactsIso(phi, n1, n2, f1, f2)
  {
    TopicKeysIso(phiS, Sources(n1), Sources(n2), f1, f2);
    HubsPartnered(n1, f1, n2, f2, phiS);
    hide FactsIso, TopicKeys, HubsOk, HubsExact, HasHub, HubMap, Sources;
    phi := HubMap(n1, n2, phiS);
    Renamed(lib, n1, f1, n2, f2, phiS, phi);
  }

  lemma HubsPartnered(n1: Table, f1: Facts, n2: Table, f2: Facts, phiS: map<Id, Id>)
    requires HubsExact(n1, f1) && HubsExact(n2, f2) && TopicKeys(f1) == TopicKeys(f2) && phiS.Keys == Sources(n1).Keys
    ensures forall id :: id in n1 && id !in phiS ==> HasHub(n2, n1[id].name)
  {
    hide TopicKeys, HasHub;
    forall id | id in n1 && id !in phiS ensures HasHub(n2, n1[id].name) {
      assert id !in Sources(n1);
    }
  }

  lemma Renamed(lib: Lib, n1: Table, f1: Facts, n2: Table, f2: Facts, phiS: map<Id, Id>, phi: map<Id, Id>)
    requires HubsOk(lib, n1) && HubsOk(lib, n2) && HubsExact(n1, f1) && HubsExact(n2, f2)
    requires TopicKeys(f1) == TopicKeys(f2)
    requires phiS.Keys == Sources(n1).Keys && FactsIso(phiS, Sources(n1), Sources(n2), f1, f2) && phi.Keys == n1.Keys
    requires forall id :: id in n1 ==> if id in phiS then phi[id] == phiS[id] else IsHubOf(n2, n1[id].name, phi[id])
    ensures FactsIso(phi, n1, n2, f1, f2)
  {
    hide HubsOk, HubsExact, TopicKeys, Iso, FactsLive, NoEmptyFacts, SameBuckets;
    FullIso(lib, n1, n2, f1, f2, phiS, phi);
    FactsLiveUp(f1, n1);
    FactsLiveUp(f2, n2);
    FullFacts(n1, n2, f1, f2, phiS, phi);
  }

  lemma FullIso(lib: Lib, n1: Table, n2: Table, f1: Facts, f2: Facts, phiS: map<Id, Id>, phi: map<Id, Id>)
    requires HubsOk(lib, n1) && HubsOk(lib, n2) && HubsExact(n1, f1) && HubsExact(n2, f2)
    requires TopicKeys(f1) == TopicKeys(f2)
    requires phiS.Keys == Sources(n1).Keys && Iso(phiS, Sources(n1), Sources(n2)) && phi.Keys == n1.Keys
    requires forall id :: id in n1 ==> if id in phiS then phi[id] == phiS[id] else IsHubOf(n2, n1[id].name, phi[id])
    ensures Iso(phi, n1, n2)
  {
    hide TopicKeys, HasHub;
    forall id | id in n1 ensures phi[id] in n2 && n2[phi[id]] == n1[id] {
      RenamedNode(lib, n1, n2, phiS, phi, id);
    }
    forall i, j | i in n1 && j in n1 && phi[i] == phi[j] ensures i == j {
      RenamedApart(lib, n1, n2, phiS, phi, i, j);
    }
    forall y | y in n2 ensures y in phi.Values {
      var x := RenamedOnto(lib, n1, f1, n2, f2, phiS, phi, y);
      assert x in phi && phi[x] == y;
    }
  }

  /** The renaming of sources, extended to hubs. */
  ghost predicate Extended(n1: Table, n2: Table, phiS: map<Id, Id>, phi: map<Id, Id>) {
    && phiS.Keys == Sources(n1).Keys && phi.Keys == n1.Keys
    && forall id :: id in n1 ==> if id in phiS then phi[id] == phiS[id] else IsHubOf(n2, n1[id].name, phi[id])
  }

  lemma RenamedNode(lib: Lib, n1: Table, n2: Table, phiS: map<Id, Id>, phi: map<Id, Id>, id: Id)
    requires HubsOk(lib, n1) && Iso(phiS, Sources(n1), Sources(n2)) && Extended(n1, n2, phiS, phi) && id in n1
    ensures phi[id] in n2 && n2[phi[id]] == n1[id]
  {
    if id in phiS {
      assert phi[id] in Sources(n2);
    } else {
      assert id !in Sources(n1);
    }
  }

  lemma RenamedApart(lib: Lib, n1: Table, n2: Table, phiS: map<Id, Id>, phi: map<Id, Id>, i: Id, j: Id)
    requires HubsOk(lib, n1) && Iso(phiS, Sources(n1), Sources(n2)) && Extended(n1, n2, phiS, phi)
    requires i in n1 && j in n1 && phi[i] == phi[j]
    ensures i == j
  {
    RenamedNode(lib, n1, n2, phiS, phi, i);
    RenamedNode(lib, n1, n2, phiS, phi, j);
    assert n1[i] == n1[j];
    assert i in phiS <==> n1[i].package != BUS;
    assert j in phiS <==> n1[j].package != BUS;
  }

  lemma RenamedOnto(lib: Lib, n1: Table, f1: Facts, n2: Table, f2: Facts, phiS: map<Id, Id>, phi: map<Id, Id>, y: Id)
    returns (x: Id)
    requires HubsOk(lib, n1) && HubsOk(lib, n2) && HubsExact(n1, f1) && HubsExact(n2, f2)
    requires TopicKeys(f1) == TopicKeys(f2)
    requires Iso(phiS, Sources(n1), Sources(n2)) && Extended(n1, n2, phiS, phi) && y in n2
    ensures x in n1 && phi[x] == y
  {
    hide TopicKeys;
    if n2[y].package == BUS {
      assert HasHub(n1, n2[y].name);
      x :| IsHubOf(n1, n2[y].name, x);
      assert x !in Sources(n1);
      HubUnique(lib, n2, n2[y].name, y, phi[x]);
    } else {
      assert y in Sources(n2);
      x := Preimage(phiS, Sources(n1), Sources(n2), y);
    }
  }

  lemma NoHubFacts(f: Facts, src: Table, id: Id)
    requires FactsLive(f, src) && id !in src
    ensures forall t ::
      Tally(At(f.imports, t), id) == 0 && Tally(At(f.producers, t), id) == 0 && Tally(At(f.consumers, t), id) == 0
    ensures CallsOf(f.calls, id) == [] && id !in f.heuristic
  {
    NoOldFacts(f, src, id);
    NoCalls(f.calls, id);
  }

  lemma FullFacts(n1: Table, n2: Table, f1: Facts, f2: Facts, phiS: map<Id, Id>, phi: map<Id, Id>)
    requires phiS.Keys == Sources(n1).Keys && FactsIso(phiS, Sources(n1), Sources(n2), f1, f2) && Iso(phi, n1, n2)
    requires forall id :: id in phiS ==> id in phi && phi[id] == phiS[id]
    ensures SameBuckets(phi, n1, f1.imports, f2.imports) && SameBuckets(phi, n1, f1.producers, f2.producers)
    ensures SameBuckets(phi, n1, f1.consumers, f2.consumers)
    ensures forall id :: id in n1 ==> CallsOf(f1.calls, id) == CallsOf(f2.calls, phi[id])
    ensures forall id :: id in n1 ==> (id in f1.heuristic <==> phi[id] in f2.heuristic)
  {
    hide Tally, CallsOf, FactsLive, SameBuckets, Sources, NoFactsAt, NoneAt;
    forall id | id in n1 && id !in phiS ensures NoFactsAt(f1, id) && NoFactsAt(f2, phi[id]) {
      HubHasNoFacts(n1, n2, f1, f2, phiS, phi, id);
    }
    hide Iso;
    assert n1.Keys <= phi.Keys by { IsoKeys(phi, n1, n2); }
    assert forall id :: id in phiS ==> id in n1 by { SourceKeys(n1, phiS); }
    AllBucketsFull(n1, n2, f1, f2, phiS, phi);
    OtherFactsFull(n1, n2, f1, f2, phiS, phi);
  }

  lemma IsoKeys(phi: map<Id, Id>, n1: Table, n2: Table)
    requires Iso(phi, n1, n2)
    ensures n1.Keys <= phi.Keys
  {
  }

  lemma SourceKeys(nodes: Table, phiS: map<Id, Id>)
    requires phiS.Keys == Sources(nodes).Keys
    ensures forall id :: id in phiS ==> id in nodes
  {
  }

  lemma AllBucketsFull(n1: Table, n2: Table, f1: Facts, f2: Facts, phiS: map<Id, Id>, phi: map<Id, Id>)
    requires phiS.Keys == Sources(n1).Keys && FactsIso(phiS, Sources(n1), Sources(n2), f1, f2) && n1.Keys <= phi.Keys
    requires forall id :: id in phiS ==> id in phi && phi[id] == phiS[id]
    requires forall id :: id in n1 && id !in phiS ==> NoFactsAt(f1, id) && NoFactsAt(f2, phi[id])
    ensures SameBuckets(phi, n1, f1.imports, f2.imports) && SameBuckets(phi, n1, f1.producers, f2.producers)
    ensures SameBuckets(phi, n1, f1.consumers, f2.consumers)
  {
    hide Tally, CallsOf, FactsLive, SameBuckets, Sources, NoneAt, Iso;
    FullBuckets(n1, n2, f1.imports, f2.imports, phiS, phi);
    FullBuckets(n1, n2, f1.producers, f2.producers, phiS, phi);
    FullBuckets(n1, n2, f1.consumers, f2.consumers, phiS, phi);
  }

  lemma OtherFactsFull(n1: Table, n2: Table, f1: Facts, f2: Facts, phiS: map<Id, Id>, phi: map<Id, Id>)
    requires phiS.Keys == Sources(n1).Keys && FactsIso(phiS, Sources(n1), Sources(n2), f1, f2) && n1.Keys <= phi.Keys
    requires forall id :: id in phiS ==> id in phi && phi[id] == phiS[id]
    requires forall id :: id in n1 && id !in phiS ==> NoFactsAt(f1, id) && NoFactsAt(f2, phi[id])
    ensures forall id :: id in n1 ==> CallsOf(f1.calls, id) == CallsOf(f2.calls, phi[id])
    ensures forall id :: id in n1 ==> (id in f1.heuristic <==> phi[id] in f2.heuristic)
  {
    hide CallsOf, FactsLive, SameBuckets, NoneAt, Iso, Sources;
    forall id | id in n1
      ensures CallsOf(f1.calls, id) == CallsOf(f2.calls, phi[id]) && (id in f1.heuristic <==> phi[id] in f2.heuristic) {
      if id in phiS {
        assert id in Sources(n1);
      }
    }
  }

  lemma HubHasNoFacts(n1: Table, n2: Table, f1: Facts, f2: Facts, phiS: map<Id, Id>, phi: map<Id, Id>, id: Id)
    requires phiS.Keys == Sources(n1).Keys && FactsIso(phiS, Sources(n1), Sources(n2), f1, f2) && Iso(phi, n1, n2)
    requires id in n1 && id !in phiS
    ensures NoFactsAt(f1, id) && NoFactsAt(f2, phi[id])
  {
    hide Tally, CallsOf, FactsLive, SameBuckets;
    assert id !in Sources(n1) && phi[id] !in Sources(n2);
    NoHubFacts(f1, Sources(n1), id);
    NoHubFacts(f2, Sources(n2), phi[id]);
  }

  ghost predicate NoFactsAt(f: Facts, id: Id) {
    && NoneAt(f.imports, id) && NoneAt(f.producers, id) && NoneAt(f.consumers, id)
    && CallsOf(f.calls, id) == [] && id !in f.heuristic
  }

  ghost predicate NoneAt(b: Buckets, id: Id) {
    forall t :: Tally(At(b, t), id) == 0
  }

  lemma FullBuckets(n1: Table, n2: Table, b1: Buckets, b2: Buckets, phiS: map<Id, Id>, phi: map<Id, Id>)
    requires phiS.Keys == Sources(n1).Keys && SameBuckets(phiS, Sources(n1), b1, b2)
    requires forall id :: id in phiS ==> id in phi && phi[id] == phiS[id]
    requires forall id :: id in n1 && id !in phiS && id in phi ==> NoneAt(b1, id) && NoneAt(b2, phi[id])
    ensures SameBuckets(phi, n1, b1, b2)
  {
    hide Tally;
    forall t, id | id in n1 && id in phi ensures Tally(At(b1, t), id) == Tally(At(b2, t), phi[id]) {
      if id !in phiS {
        assert NoneAt(b1, id) && NoneAt(b2, phi[id]);
      }
    }
  }

  // ------------------------------------------------------------------ the main theorem

  lemma UpToDateLive(lib: Lib, nodes: Table, bound: nat, f: Facts, edges: seq<Edge>)
    requires UpToDate(lib, nodes, bound, f, edges)
    ensures forall e :: e in edges ==> e.from in nodes && e.to in nodes
  {
    hide DerivedEdge, Sources, FactsLive;
    forall e | e in edges ensures e.from in nodes && e.to in nodes {
      DerivedLive(lib, nodes, f, e);
    }
  }

  lemma SameEdgeLines(phi: map<Id, Id>, lib: Lib, n1: Table, b1: nat, f1: Facts, e1: seq<Edge>, n2: Table, b2: nat,
        f2: Facts, e2: seq<Edge>)
    requires UpToDate(lib, n1, b1, f1, e1) && UpToDate(lib, n2, b2, f2, e2)
    requires FactsIso(phi, n1, n2, f1, f2) && UniqueImports(lib, Sources(n1), f1) && NothingTruncated(Sources(n1), f1)
    ensures multiset(EdgeLines(n1, e1)) == multiset(EdgeLines(n2, e2))
  {
    hide DerivedEdge, Sources, FactsLive, UniqueImports, EdgeLines, SameBuckets, NothingTruncated;
    UpToDateLive(lib, n1, b1, f1, e1);
    UpToDateLive(lib, n2, b2, f2, e2);
    forall e: Edge | e.from in n1 && e.to in n1 ensures e in e1 <==> Move(phi, e) in e2 {
      DerivedIso(phi, lib, n1, n2, f1, f2, e);
    }
    forall i | 0 <= i < |e1| ensures e1[i].from in n1 && e1[i].to in n1 {
      assert e1[i] in e1;
    }
    EdgesCanon(phi, n1, n2, e1, e2);
  }

  /** Two up-to-date graphs of the same workspace have the same canonical lines. */
  lemma SameWorkspaceSameLines(lib: Lib, w: Files, n1: Table, b1: nat, f1: Facts, e1: seq<Edge>, n2: Table, b2: nat,
        f2: Facts, e2: seq<Edge>)
    requires Represented(lib, w, Sources(n1), f1) && Represented(lib, w, Sources(n2), f2)
    requires UpToDate(lib, n1, b1, f1, e1) && UpToDate(lib, n2, b2, f2, e2)
    requires UniqueImports(lib, Sources(n1), f1) && NothingTruncated(Sources(n1), f1)
    ensures CanonicalLines(n1, b1, f1, e1) == CanonicalLines(n2, b2, f2, e2)
  {
    hide Represented, UniqueImports, Sources, EdgeLines, CallLines, BucketLines, Image, Ids, HubsOk, HubsExact,
         Distinct, DerivedEdge, UpToDate, FactsIso, NoEmptyFacts, FactsLive, NothingTruncated;
    UpToDateParts(lib, n1, b1, f1, e1);
    UpToDateParts(lib, n2, b2, f2, e2);
    var phiS := SourceRenaming(lib, w, Sources(n1), f1, Sources(n2), f2);
    var phi := FullRenaming(lib, n1, f1, n2, f2, phiS);
    SameEdgeLines(phi, lib, n1, b1, f1, e1, n2, b2, f2, e2);
    SameFactLines(phi, n1, n2, b1, b2, f1, f2);
  }

  lemma UpToDateParts(lib: Lib, nodes: Table, bound: nat, f: Facts, edges: seq<Edge>)
    requires UpToDate(lib, nodes, bound, f, edges)
    ensures Below(nodes, bound) && HubsOk(lib, nodes) && HubsExact(nodes, f) && FactsLive(f, nodes) && NoEmptyFacts(f)
  {
    hide DerivedEdge, HubsOk, HubsExact, FactsLive;
    FactsLiveUp(f, nodes);
  }

  lemma SameFactLines(phi: map<Id, Id>, n1: Table, n2: Table, b1: nat, b2: nat, f1: Facts, f2: Facts)
    requires FactsIso(phi, n1, n2, f1, f2) && Below(n1, b1) && Below(n2, b2)
    requires FactsLive(f1, n1) && FactsLive(f2, n2) && NoEmptyFacts(f1) && NoEmptyFacts(f2)
    ensures multiset(Image(n1, Ids(n1, b1))) == multiset(Image(n2, Ids(n2, b2)))
    ensures BucketLines(n1, f1.imports) == BucketLines(n2, f2.imports)
    ensures BucketLines(n1, f1.producers) == BucketLines(n2, f2.producers)
    ensures BucketLines(n1, f1.consumers) == BucketLines(n2, f2.consumers)
    ensures multiset(CallLines(n1, f1.calls)) == multiset(CallLines(n2, f2.calls))
  {
    hide BucketLines, CallLines, Image, Ids, Iso, SameBuckets, NoEmptyBucket;
    NodesCanon(phi, n1, n2, b1, b2);
    BucketsCanon(phi, n1, n2, f1.imports, f2.imports);
    BucketsCanon(phi, n1, n2, f1.producers, f2.producers);
    BucketsCanon(phi, n1, n2, f1.consumers, f2.consumers);
    CallsCanon(phi, n1, n2, f1, f2);
  }
}
