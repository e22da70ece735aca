/** Runs in which the reload laws fail: a truncated subscription keeps other producers in another file order. */
module Truncation {
  import opened Text
  import opened Seqs
  import opened GraphModel
  import opened Subjects
  import opened ImportPass
  import opened TopicPass
  import opened RpcMeaning
  import opened Reconciled
  import opened Graph
  import opened Workspace
  import opened Capture
  import opened Canonical
  import opened Convergence
  import opened Reload

  // ------------------------------------------------------------------ which producers are kept

  /** One subject with these producers, heard by the subscription. */
  ghost predicate OneSubject(f: Facts, key: string, s: string, ids: seq<Id>) {
    && f.producers == map[s := ids] && NoDup(ids) && key != s
    && !IsPattern(s) && Subjects.Matches(key, s) && forall i :: 0 <= i < |ids| ==> ids[i] !in At(f.consumers, key)
  }

  lemma OnePlace(f: Facts, key: string, s: string, ids: seq<Id>, t: string, i: nat, p: Id)
    requires OneSubject(f, key, s, ids)
    ensures HeardAt(f, key, t, i, p) <==> t == s && i < |ids| && ids[i] == p
  {
    hide IsPattern, Subjects.Matches, NoDup;
  }

  lemma EarlierByIndex(f: Facts, key: string, s: string, ids: seq<Id>, i: nat, j: nat)
    requires OneSubject(f, key, s, ids) && i < |ids| && j < |ids|
    ensures Earlier(f, key, ids[i], ids[j]) <==> i < j
  {
    hide HeardAt, OneSubject;
    forall t, n: nat, p { OnePlace(f, key, s, ids, t, n, p); }
    assert NoDup(ids) by { OneSubjectNoDup(f, key, s, ids); }
    LessTotal(s, s);
    if i < j {
      assert PlacedFirst(f, key, s, i, ids[j]);
      assert HeardAt(f, key, s, i, ids[i]);
    }
    if Earlier(f, key, ids[i], ids[j]) {
      var t, n: nat :| HeardAt(f, key, t, n, ids[i]) && PlacedFirst(f, key, t, n, ids[j]);
      assert HeardAt(f, key, s, j, ids[j]);
    }
  }

  lemma OneSubjectNoDup(f: Facts, key: string, s: string, ids: seq<Id>)
    requires OneSubject(f, key, s, ids)
    ensures NoDup(ids)
  {
  }

  lemma HeardIds(f: Facts, key: string, s: string, ids: seq<Id>, p: Id)
    requires OneSubject(f, key, s, ids)
    ensures p in Heard(f, key) <==> p in ids
  {
    hide IsPattern, Subjects.Matches, NoDup;
    assert At(f.producers, key) == [] && At(f.producers, s) == ids;
    if p in ids {
      assert HeardOn(f, key, s, p) && s in f.producers && p in f.producers[s];
    }
  }

  lemma {:induction false} IdCount(ids: seq<Id>, n: nat)
    requires NoDup(ids) && n <= |ids|
    ensures |set i | 0 <= i < n :: ids[i]| == n
  {
    if n > 0 {
      IdCount(ids, n - 1);
      assert (set i | 0 <= i < n :: ids[i]) == (set i | 0 <= i < n - 1 :: ids[i]) + {ids[n - 1]};
    }
  }

  /** Of one subject's producers the first 256 in bucket order are kept. */
  lemma KeptByIndex(f: Facts, key: string, s: string, ids: seq<Id>, j: nat)
    requires OneSubject(f, key, s, ids) && j < |ids|
    ensures ids[j] in Kept(f, key) <==> j < MAX_WILDCARD_PRODUCERS
  {
    hide Earlier, Heard, OneSubject;
    OneSubjectNoDup(f, key, s, ids);
    forall p { HeardIds(f, key, s, ids, p); }
    forall i | 0 <= i < |ids|
      ensures Earlier(f, key, ids[i], ids[j]) <==> i < j { EarlierByIndex(f, key, s, ids, i, j); }
    assert EarlierThan(f, key, ids[j]) == set i | 0 <= i < j :: ids[i];
    IdCount(ids, j);
  }

  /** Past the cap, moving the last producer of a subject to the front changes which producers are kept. */
  lemma TruncationDependsOnOrder(f: Facts, f': Facts, key: string, s: string, ids: seq<Id>)
    requires |ids| > MAX_WILDCARD_PRODUCERS && OneSubject(f, key, s, ids)
    requires OneSubject(f', key, s, [ids[|ids| - 1]] + ids[..|ids| - 1])
    ensures ids[|ids| - 1] !in Kept(f, key) && ids[|ids| - 1] in Kept(f', key)
  {
    hide OneSubject, Kept;
    KeptByIndex(f, key, s, ids, |ids| - 1);
    KeptByIndex(f', key, s, [ids[|ids| - 1]] + ids[..|ids| - 1], 0);
  }

  // ------------------------------------------------------------------ two file orders

  /** Consecutive ids. */
  function Range(base: Id, n: nat): (r: seq<Id>)
    ensures |r| == n && forall i :: 0 <= i < n ==> r[i] == base + i
  {
    if n == 0 then [] else Range(base, n - 1) + [base + n - 1]
  }

  function Publications(n: nat, s: string): (r: seq<Local>)
    ensures |r| == n && forall i :: 0 <= i < n ==> r[i] == (i, s)
  {
    if n == 0 then [] else Publications(n - 1, s) + [(n - 1, s)]
  }

  /** A file whose nodes all publish to one subject. */
  function Publishers(ns: seq<Node>, s: string): FileIndex {
    FileIndex(ns, [], Publications(|ns|, s), [], [], [])
  }

  /** A file whose one node listens to the subscription. */
  function Listener(c: Node, key: string): FileIndex {
    FileIndex([c], [], [], [(0, key)], [], [])
  }

  lemma {:induction false} PushRange(index: Buckets, base: Id, facts: seq<Local>, s: string)
    requires forall i :: 0 <= i < |facts| ==> facts[i] == (i, s)
    ensures At(PushAll(index, base, facts), s) == At(index, s) + Range(base, |facts|)
    ensures facts != [] ==> PushAll(index, base, facts) == index[s := At(index, s) + Range(base, |facts|)]
  {
    if facts == [] {
      AppendNothing(At(index, s));
    } else {
      var init := facts[..|facts| - 1];
      PushRange(index, base, init, s);
      hide PushAll, Range;
      PushAllLast(index, base, facts);
      assert At(index, s) + Range(base, |init|) + [base + |init|] == At(index, s) + Range(base, |facts|);
    }
  }

  lemma PushAllLast(index: Buckets, base: Id, facts: seq<Local>)
    requires facts != []
    ensures
      var last := facts[|facts| - 1];
      PushAll(index, base, facts) == Push(PushAll(index, base, facts[..|facts| - 1]), last.1, base + last.0)
  {
  }

  lemma OnlyProducers(lib: Lib, f: Facts, base: Id, fi: FileIndex)
    requires fi.dependencies == [] && fi.consumers == [] && fi.calls == [] && fi.heuristic == []
    ensures Added(lib, f, base, fi) == f.(producers := PushAll(f.producers, base, Topics(lib, fi.producers)))
  {
    AppendNothing(f.calls);
    assert f.heuristic + (set i | 0 <= i < |fi.heuristic| :: base + fi.heuristic[i]) == f.heuristic;
  }

  lemma OnlyConsumers(lib: Lib, f: Facts, base: Id, fi: FileIndex)
    requires fi.dependencies == [] && fi.producers == [] && fi.calls == [] && fi.heuristic == []
    ensures Added(lib, f, base, fi) == f.(consumers := PushAll(f.consumers, base, Topics(lib, fi.consumers)))
  {
    AppendNothing(f.calls);
    assert f.heuristic + (set i | 0 <= i < |fi.heuristic| :: base + fi.heuristic[i]) == f.heuristic;
  }

  lemma PublishersAdded(lib: Lib, f: Facts, base: Id, ns: seq<Node>, s: string)
    requires lib.topicKey(s) == s && ns != []
    ensures Added(lib, f, base, Publishers(ns, s))
      == f.(producers := f.producers[s := At(f.producers, s) + Range(base, |ns|)])
  {
    hide Range, At, Added, PushAll;
    OnlyProducers(lib, f, base, Publishers(ns, s));
    PushRange(f.producers, base, Topics(lib, Publications(|ns|, s)), s);
  }

  lemma ListenerAdded(lib: Lib, c: Node, key: string)
    requires lib.topicKey(key) == key
    ensures Added(lib, NO_FACTS, 0, Listener(c, key)) == NO_FACTS.(consumers := map[key := [0]])
  {
    hide Added, PushAll;
    OnlyConsumers(lib, NO_FACTS, 0, Listener(c, key));
    PushRange(map[], 0, Topics(lib, [(0, key)]), key);
    RangeFrom(0, 0, 1);
    assert Range(0, 1) == [0];
  }

  /** The files in folding order. */
  function CrowdFiles(key: string, s: string, c: Node, ps: seq<Node>, pf: string, qs: seq<Node>,
        qf: string): seq<(string, FileIndex)> {
    [(c.file, Listener(c, key)), (pf, Publishers(ps, s)), (qf, Publishers(qs, s))]
  }

  function CrowdTable(c: Node, ps: seq<Node>, qs: seq<Node>): Table {
    Block(Block(Block(map[], 0, [c]), 1, ps), 1 + |ps|, qs)
  }

  function CrowdFacts(key: string, s: string, n: nat): Facts {
    Facts(map[], map[s := Range(1, n)], map[key := [0]], [], {})
  }

  lemma StackCrowd(lib: Lib, key: string, s: string, c: Node, ps: seq<Node>, pf: string, qs: seq<Node>, qf: string)
    requires lib.topicKey(key) == key && lib.topicKey(s) == s && ps != [] && qs != []
    ensures Stacked(lib, (map[], 0, NO_FACTS), CrowdFiles(key, s, c, ps, pf, qs, qf))
         == (CrowdTable(c, ps, qs), 1 + |ps| + |qs|, CrowdFacts(key, s, |ps| + |qs|))
  {
    hide Block, Added, Publishers, Listener, Range, Stacked;
    var a, p, q := (c.file, Listener(c, key)), (pf, Publishers(ps, s)), (qf, Publishers(qs, s));
    var start: (Table, nat, Facts) := (map[], 0, NO_FACTS);
    var none: seq<(string, FileIndex)> := [];
    assert none + [a] == [a] && [a] + [p] == [a, p] && [a, p] + [q] == [a, p, q];
    CrowdNodes(key, s, c, ps, qs);
    StackNone(lib, start);
    StackOne(lib, start, none, a);
    ListenerAdded(lib, c, key);
    var f1 := NO_FACTS.(consumers := map[key := [0]]);
    StackOne(lib, start, [a], p);
    PublishersAdded(lib, f1, 1, ps, s);
    RangeFrom(1, 0, |ps|);
    var f2 := f1.(producers := map[s := Range(1, |ps|)]);
    StackOne(lib, start, [a, p], q);
    PublishersAdded(lib, f2, 1 + |ps|, qs, s);
    RangeFrom(1, |ps|, |qs|);
    assert map[s := Range(1, |ps|)][s := Range(1, |ps| + |qs|)] == map[s := Range(1, |ps| + |qs|)];
  }

  lemma CrowdNodes(key: string, s: string, c: Node, ps: seq<Node>, qs: seq<Node>)
    ensures Listener(c, key).nodes == [c] && Publishers(ps, s).nodes == ps && Publishers(qs, s).nodes == qs
  {
  }

  lemma {:induction false} RangeFrom(base: Id, n: nat, m: nat)
    ensures Range(base, n) + Range(base + n, m) == Range(base, n + m)
    ensures [] + Range(base, m) == Range(base, m)
  {
    hide Range;
  }

  /** A listener of the subscription, publishers of a subject it matches, in three files. */
  ghost predicate Crowd(lib: Lib, key: string, s: string, c: Node, ps: seq<Node>, pf: string, qs: seq<Node>,
        qf: string) {
    && lib.topicKey(key) == key && lib.topicKey(s) == s && IsPattern(key) && !IsPattern(s) && Subjects.Matches(key, s)
    && c.file != pf && c.file != qf && pf != qf && !(c.kind in {KafkaTopic, Queue}) && c.package != BUS
       && c.repo != NO_REPO
    && InFile(ps, pf) && InFile(qs, qf)
  }

  ghost predicate InFile(ns: seq<Node>, path: string) {
    ns != [] && forall i :: 0 <= i < |ns| ==> ns[i].file == path && ns[i].package != BUS && ns[i].repo != NO_REPO
  }

  lemma CrowdOk(lib: Lib, key: string, s: string, c: Node, ps: seq<Node>, pf: string, qs: seq<Node>, qf: string)
    requires Crowd(lib, key, s, c, ps, pf, qs, qf)
    ensures DistinctOk(CrowdFiles(key, s, c, ps, pf, qs, qf))
  {
    hide IsPattern, Subjects.Matches;
  }

  /** The table once the files are folded: the listener, then the publishers. */
  lemma CrowdIds(c: Node, ps: seq<Node>, qs: seq<Node>)
    ensures
      var pre, all := CrowdTable(c, ps, qs), ps + qs;
      && (forall id :: id in pre <==> 0 <= id <= |all|)
      && forall id :: id in pre ==> pre[id] == if id == 0 then c else all[id - 1]
  {
    hide Block;
  }

  lemma CrowdSources(lib: Lib, key: string, s: string, c: Node, ps: seq<Node>, pf: string, qs: seq<Node>, qf: string)
    requires Crowd(lib, key, s, c, ps, pf, qs, qf)
    ensures forall id :: id in CrowdTable(c, ps, qs) ==> CrowdTable(c, ps, qs)[id].package != BUS
    ensures forall i :: 0 <= i < |ps + qs| ==> (ps + qs)[i].file != c.file
  {
    hide CrowdTable, IsPattern, Subjects.Matches;
    CrowdIds(c, ps, qs);
  }

  /** The graph prints a publish edge from the node to the hub of the key. */
  ghost predicate PrintsPublish(nodes: Table, edges: seq<Edge>, from: Node, key: string) {
    exists m, c :: EdgeLine(Produces, Some(from), Some(Hub(key)), m, c) in multiset(EdgeLines(nodes, edges))
  }

  lemma CrowdSubject(key: string, s: string, n: nat)
    requires IsPattern(key) && !IsPattern(s) && Subjects.Matches(key, s)
    ensures OneSubject(CrowdFacts(key, s, n), key, s, Range(1, n))
  {
    hide IsPattern, Subjects.Matches;
  }

  /** In such facts, producer `1 + j` publishes to the hub of the key if and only if it is kept. */
  lemma CrowdEdge(nodes: Table, key: string, s: string, n: nat, j: nat, hub: Id, e: Edge)
    requires OneSubject(CrowdFacts(key, s, n), key, s, Range(1, n)) && j < n && e.from == 1 + j && e.kind == Produces
    requires IsPattern(key) && 0 in nodes && !(nodes[0].kind in {KafkaTopic, Queue})
    ensures TopicEdge(nodes, CrowdFacts(key, s, n), key, hub, e)
       <==> j < MAX_WILDCARD_PRODUCERS && e == Edge(1 + j, hub, Produces, s, Heuristic)
  {
    hide Kept, IsPattern, Subjects.Matches, HeardOn, Range;
    var f, ids := CrowdFacts(key, s, n), Range(1, n);
    assert ids[j] == e.from;
    KeptByIndex(f, key, s, ids, j);
    CrowdLeast(f, key, s, ids, j, e.metadata);
    assert At(f.producers, key) == [];
    assert At(f.consumers, key)[0] == 0;
  }

  lemma CrowdLeast(f: Facts, key: string, s: string, ids: seq<Id>, j: nat, t: string)
    requires OneSubject(f, key, s, ids) && j < |ids|
    ensures LeastSubject(f, key, t, ids[j]) <==> t == s
  {
    hide IsPattern, Subjects.Matches;
    assert ids[j] in At(f.producers, s);
  }

  lemma CrowdPrints(lib: Lib, key: string, s: string, c: Node, ps: seq<Node>, pf: string, qs: seq<Node>, qf: string,
                    j: nat, nodes: Table, bound: nat, edges: seq<Edge>)
    requires Crowd(lib, key, s, c, ps, pf, qs, qf) && j < |ps + qs|
    requires forall i :: 0 <= i < |ps + qs| && i != j ==> (ps + qs)[i] != (ps + qs)[j]
    requires DerivedFrom(lib, CrowdTable(c, ps, qs), nodes, bound, CrowdFacts(key, s, |ps| + |qs|), edges)
    ensures PrintsPublish(nodes, edges, (ps + qs)[j], key) <==> j < MAX_WILDCARD_PRODUCERS
  {
    hide DerivedEdge, FactsLive, IsPattern, Subjects.Matches, CrowdFacts, CrowdTable, Sources, InFile, PrintsPublish,
         HubsOk, HubsExact, NoEmptyFacts, OneSubject;
    CrowdSubject(key, s, |ps + qs|);
    CrowdKept(lib, key, s, c, ps, pf, qs, qf, j, nodes);
    assert |ps + qs| == |ps| + |qs|;
    if j < MAX_WILDCARD_PRODUCERS {
      KeptPrints(lib, CrowdTable(c, ps, qs), nodes, bound, key, s, |ps| + |qs|, edges, j);
    } else if PrintsPublish(nodes, edges, (ps + qs)[j], key) {
      PrintedKept(lib, CrowdTable(c, ps, qs), nodes, bound, key, s, |ps| + |qs|, edges, j);
    }
  }

  lemma KeptPrints(lib: Lib, pre: Table, nodes: Table, bound: nat, key: string, s: string, n: nat, edges: seq<Edge>,
                   j: nat)
    requires DerivedFrom(lib, pre, nodes, bound, CrowdFacts(key, s, n), edges)
    requires OneSubject(CrowdFacts(key, s, n), key, s, Range(1, n)) && IsPattern(key)
    requires 0 in Sources(nodes) && !(Sources(nodes)[0].kind in {KafkaTopic, Queue})
    requires j < n && j < MAX_WILDCARD_PRODUCERS && 1 + j in nodes
    ensures PrintsPublish(nodes, edges, nodes[1 + j], key)
  {
    hide ImportEdge, ImplementsEdge, CallEdge, TopicEdge, FactsLive, IsPattern, EdgeLines, Range, Sources, OneSubject;
    var f := CrowdFacts(key, s, n);
    assert key in TopicKeys(f);
    var hub :| IsHubOf(nodes, key, hub);
    var e := Edge(1 + j, hub, Produces, s, Heuristic);
    CrowdEdge(Sources(nodes), key, s, n, j, hub, e);
    assert HubEdge(nodes, f, key, e);
    assert DerivedEdge(lib, pre, nodes, f, e);
    var i :| 0 <= i < |edges| && edges[i] == e;
    assert EdgeLines(nodes, edges)[i] == EdgeLine(Produces, Some(nodes[1 + j]), Some(Hub(key)), s, Heuristic);
  }

  lemma PrintedKept(lib: Lib, pre: Table, nodes: Table, bound: nat, key: string, s: string, n: nat, edges: seq<Edge>,
                    j: nat)
    requires DerivedFrom(lib, pre, nodes, bound, CrowdFacts(key, s, n), edges)
    requires OneSubject(CrowdFacts(key, s, n), key, s, Range(1, n)) && IsPattern(key)
    requires 0 in Sources(nodes) && !(Sources(nodes)[0].kind in {KafkaTopic, Queue})
    requires j < n && 1 + j in nodes && forall id :: id in nodes && nodes[id] == nodes[1 + j] ==> id == 1 + j
    requires PrintsPublish(nodes, edges, nodes[1 + j], key)
    ensures j < MAX_WILDCARD_PRODUCERS
  {
    hide ImportEdge, ImplementsEdge, CallEdge, TopicEdge, FactsLive, IsPattern, EdgeLines, Range, Sources, OneSubject,
         CrowdFacts, TopicKeys, HubsOk, HubsExact;
    var f := CrowdFacts(key, s, n);
    var m, conf :| EdgeLine(Produces, Some(nodes[1 + j]), Some(Hub(key)), m, conf) in multiset(EdgeLines(nodes, edges));
    var line := EdgeLine(Produces, Some(nodes[1 + j]), Some(Hub(key)), m, conf);
    assert line in EdgeLines(nodes, edges);
    var i :| 0 <= i < |edges| && EdgeLines(nodes, edges)[i] == line;
    var e := edges[i];
    assert e in edges;
    PublishKind(lib, pre, nodes, f, e);
    var k :| k in TopicKeys(f) && HubEdge(nodes, f, k, e);
    var hub :| IsHubOf(nodes, k, hub) && TopicEdge(Sources(nodes), f, k, hub, e);
    PublishTo(Sources(nodes), f, k, hub, e);
    assert k == key by { assert nodes[hub].name == k; }
    CrowdEdge(Sources(nodes), key, s, n, j, hub, e);
  }

  lemma PublishKind(lib: Lib, pre: Table, nodes: Table, f: Facts, e: Edge)
    requires DerivedEdge(lib, pre, nodes, f, e) && e.kind == Produces
    ensures AnyHubEdge(nodes, f, e)
  {
    hide Hits, Targets, AnyHubEdge, CallYields;
  }

  lemma PublishTo(nodes: Table, f: Facts, key: string, hub: Id, e: Edge)
    requires TopicEdge(nodes, f, key, hub, e) && e.kind == Produces
    ensures e.to == hub
  {
    hide Kept, LeastSubject, Wildcard;
  }

  /** The folded nodes survive, the listener has its transport, and only `1 + j` is node `j` of the publishers. */
  lemma CrowdKept(lib: Lib, key: string, s: string, c: Node, ps: seq<Node>, pf: string, qs: seq<Node>, qf: string,
        j: nat, nodes: Table)
    requires Crowd(lib, key, s, c, ps, pf, qs, qf) && j < |ps + qs|
    requires forall i :: 0 <= i < |ps + qs| && i != j ==> (ps + qs)[i] != (ps + qs)[j]
    requires Sources(CrowdTable(c, ps, qs)) == Sources(nodes)
    ensures 0 in Sources(nodes) && Sources(nodes)[0] == c
    ensures 1 + j in nodes && nodes[1 + j] == (ps + qs)[j]
    ensures forall id :: id in nodes && nodes[id] == (ps + qs)[j] ==> id == 1 + j
  {
    hide Block, CrowdTable, IsPattern, Subjects.Matches;
    var pre, all := CrowdTable(c, ps, qs), ps + qs;
    CrowdIds(c, ps, qs);
    CrowdSources(lib, key, s, c, ps, pf, qs, qf);
    assert 0 in Sources(pre) && 1 + j in Sources(pre);
    forall id | id in nodes && nodes[id] == all[j] ensures id == 1 + j {
      assert id in Sources(nodes);
      assert id in Sources(pre) && pre[id] == all[j];
      assert id != 0;
    }
  }

  /** Built in this order, exactly the first 256 publishers are printed at the subscription's hub. */
  method BuildCrowd(lib: Lib, key: string, s: string, c: Node, ps: seq<Node>, pf: string, qs: seq<Node>, qf: string)
    returns (g: ContractGraph)
    requires LibOk(lib) && Crowd(lib, key, s, c, ps, pf, qs, qf)
    ensures fresh(g) && g.lib == lib && Holds(g, Fold(map[], CrowdFiles(key, s, c, ps, pf, qs, qf)))
    ensures UpToDate(lib, g.nodes, g.nextNodeId, g.Recorded(), g.edges)
    ensures forall j ::
      0 <= j < |ps + qs| && (forall i :: 0 <= i < |ps + qs| && i != j ==> (ps + qs)[i] != (ps + qs)[j]) ==>
      (PrintsPublish(g.nodes, g.edges, (ps + qs)[j], key) <==> j < MAX_WILDCARD_PRODUCERS)
  {
    hide Holds, LibOk, PrintsPublish, Stacked, UpToDate, AnyCaptured, KeepsLive, TakenBeyond, Fold, CrowdTable,
         CrowdFiles, CrowdFacts, DerivedFrom, FileIndex.Ok, ImportersOk;
    var files := CrowdFiles(key, s, c, ps, pf, qs, qf);
    g := New(lib);
    CrowdOk(lib, key, s, c, ps, pf, qs, qf);
    FoldAll(g, files, map[]);
    StackCrowd(lib, key, s, c, ps, pf, qs, qf);
    ghost var w := Fold(map[], files);
    ghost var pre := CrowdTable(c, ps, qs);
    Derive(g, w);
    CrowdHubless(lib, key, s, c, ps, pf, qs, qf, g.reverseDeps);
    forall j | 0 <= j < |ps + qs| && (forall i :: 0 <= i < |ps + qs| && i != j ==> (ps + qs)[i] != (ps + qs)[j])
      ensures PrintsPublish(g.nodes, g.edges, (ps + qs)[j], key) <==> j < MAX_WILDCARD_PRODUCERS
    {
      CrowdPrints(lib, key, s, c, ps, pf, qs, qf, j, g.nodes, g.nextNodeId, g.edges);
    }
  }

  lemma CrowdHubless(lib: Lib, key: string, s: string, c: Node, ps: seq<Node>, pf: string, qs: seq<Node>, qf: string,
        imports: Buckets)
    requires Crowd(lib, key, s, c, ps, pf, qs, qf)
    ensures !AnyCaptured(lib, CrowdTable(c, ps, qs), imports)
  {
    hide AnyCaptured, Block, CrowdTable, IsPattern, Subjects.Matches;
    var pre := CrowdTable(c, ps, qs);
    CrowdSources(lib, key, s, c, ps, pf, qs, qf);
    NoHubsNoCapture(lib, pre, imports);
  }

  /**
   * One publisher in a file of its own, and a file of 256 or more: folded before them it is printed at the
   * subscription's hub, folded after them it is not. Both graphs are up to date and hold the one workspace.
   */
  method CrowdTwoOrders(lib: Lib, key: string, s: string, c: Node, x: Node, ys: seq<Node>, yf: string)
    returns (g: ContractGraph, h: ContractGraph)
    requires LibOk(lib) && Crowd(lib, key, s, c, [x], x.file, ys, yf) && |ys| >= MAX_WILDCARD_PRODUCERS
    ensures g.lib == lib && Holds(g, Fold(map[], CrowdFiles(key, s, c, [x], x.file, ys, yf)))
    ensures h.lib == lib && Holds(h, Fold(map[], CrowdFiles(key, s, c, [x], x.file, ys, yf)))
    ensures UpToDate(lib, g.nodes, g.nextNodeId, g.Recorded(), g.edges)
    ensures UpToDate(lib, h.nodes, h.nextNodeId, h.Recorded(), h.edges)
    ensures Reload.Lines(g) != Reload.Lines(h)
  {
    hide Holds, LibOk, UpToDate, Fold, CrowdFiles, IsPattern, Subjects.Matches;
    g := BuildCrowd(lib, key, s, c, [x], x.file, ys, yf);
    h := BuildCrowd(lib, key, s, c, ys, yf, [x], x.file);
    FoldCrowd(lib, key, s, c, x, ys, yf);
    assert ([x] + ys)[0] == x && (ys + [x])[|ys|] == x;
    assert forall i :: 0 <= i < |ys| ==> ys[i].file != x.file;
    assert PrintsPublish(g.nodes, g.edges, x, key) && !PrintsPublish(h.nodes, h.edges, x, key);
  }

  lemma FoldCrowd(lib: Lib, key: string, s: string, c: Node, x: Node, ys: seq<Node>, yf: string)
    requires Crowd(lib, key, s, c, [x], x.file, ys, yf)
    ensures Fold(map[], CrowdFiles(key, s, c, [x], x.file, ys, yf))
      == Fold(map[], CrowdFiles(key, s, c, ys, yf, [x], x.file))
  {
    hide IsPattern, Subjects.Matches, Publishers, Listener;
    var a, p, q := (c.file, Listener(c, key)), (x.file, Publishers([x], s)), (yf, Publishers(ys, s));
    FoldLast(map[], [a, p], q);
    FoldLast(map[], [a, q], p);
    FoldLast(map[], [a], p);
    FoldLast(map[], [a], q);
    assert [a] + [p] == [a, p] && [a] + [q] == [a, q] && [a, p] + [q] == [a, p, q] && [a, q] + [p] == [a, q, p];
  }
}
