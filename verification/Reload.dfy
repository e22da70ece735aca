/**
 * The laws of reloading: a reload equals a rebuild exactly when no hub captures an import, and a second derivation
 * changes nothing exactly when no hub dropped or created by the first one takes an import.
 */
module Reload {
  import opened Text
  import opened Seqs
  import opened GraphModel
  import opened EdgeLog
  import opened ImportPass
  import opened TopicPass
  import opened RpcMeaning
  import opened Reconciled
  import opened Graph
  import opened Workspace
  import opened Capture
  import opened Canonical
  import opened Convergence
  import opened Places
  import opened Indexer

  /** What `reconcile_edges` leaves when it starts from table `pre`. */
  ghost predicate DerivedFrom(lib: Lib, pre: Table, nodes: Table, bound: nat, f: Facts, edges: seq<Edge>) {
    && Below(nodes, bound) && HubsOk(lib, pre) && HubsOk(lib, nodes) && HubsExact(nodes, f)
    && Sources(pre) == Sources(nodes) && FactsLive(f, Sources(nodes)) && NoEmptyFacts(f)
    && Distinct(edges) && forall e :: e in edges <==> DerivedEdge(lib, pre, nodes, f, e)
  }

  lemma OtherKinds(lib: Lib, nodes: Table, f: Facts, e: Edge)
    requires e.kind == EdgeKind.Imports
    ensures !AnyHubEdge(nodes, f, e) && !ImplementsEdge(lib, nodes, f.calls, e) && !CallEdge(lib, nodes, f.calls, e)
  {
    hide LeastSubject, Wildcard, Heard;
  }

  /** The derived graph is up to date exactly when no import is captured by a hub of the table it started from. */
  lemma UpToDateIffNotCaptured(lib: Lib, pre: Table, nodes: Table, bound: nat, f: Facts, edges: seq<Edge>)
    requires DerivedFrom(lib, pre, nodes, bound, f, edges) && ImportersOk(pre, f.imports)
    ensures UpToDate(lib, nodes, bound, f, edges) <==> !AnyCaptured(lib, pre, f.imports)
  {
    hide ImportEdge, AnyHubEdge, ImplementsEdge, CallEdge, AnyCaptured, HubsOk, HubsExact, FactsLive, Sources,
         ImportersOk;
    HubsShowIffCaptured(lib, pre, f.imports);
    if !AnyCaptured(lib, pre, f.imports) {
      forall e ensures e in edges <==> DerivedEdge(lib, Sources(nodes), nodes, f, e) {}
    } else {
      var e :| !(ImportEdge(lib, pre, f.imports, e) <==> ImportEdge(lib, Sources(pre), f.imports, e));
      ImportKind(lib, pre, f.imports, e);
      ImportKind(lib, Sources(pre), f.imports, e);
      OtherKinds(lib, nodes, f, e);
      assert e in edges <==> DerivedEdge(lib, pre, nodes, f, e);
    }
  }

  lemma ImportKind(lib: Lib, nodes: Table, imports: Buckets, e: Edge)
    ensures ImportEdge(lib, nodes, imports, e) ==> e.kind == EdgeKind.Imports
  {
    hide Hits, Targets;
  }

  /** A captured import prints a line no up-to-date graph prints: an `Imports` edge to a hub, or to a missing node. */
  lemma CapturedLine(lib: Lib, pre: Table, nodes: Table, bound: nat, f: Facts, edges: seq<Edge>)
    returns (line: EdgeLine)
    requires DerivedFrom(lib, pre, nodes, bound, f, edges) && ImportersOk(pre, f.imports)
    requires AnyCaptured(lib, pre, f.imports)
    ensures line in multiset(EdgeLines(nodes, edges))
    ensures line.kind == EdgeKind.Imports && (line.to.Some? ==> line.to.value.package == BUS)
  {
    hide ImportEdge, AnyHubEdge, ImplementsEdge, CallEdge, AnyCaptured, HubsOk, HubsExact, FactsLive, ImportersOk;
    var e := CapturedEdge(lib, pre, f.imports);
    ImportKind(lib, pre, f.imports, e);
    assert DerivedEdge(lib, pre, nodes, f, e);
    assert e in edges;
    var i :| 0 <= i < |edges| && edges[i] == e;
    line := LineOf(nodes, e);
    assert EdgeLines(nodes, edges)[i] == line;
    assert line in EdgeLines(nodes, edges);
    assert e.to !in Sources(pre);
    assert e.to !in Sources(nodes);
  }

  lemma UpToDateLines(lib: Lib, nodes: Table, bound: nat, f: Facts, edges: seq<Edge>, line: EdgeLine)
    requires UpToDate(lib, nodes, bound, f, edges) && line in multiset(EdgeLines(nodes, edges))
    requires line.kind == EdgeKind.Imports
    ensures line.to.Some? && line.to.value.package != BUS
  {
    hide ImportEdge, AnyHubEdge, ImplementsEdge, CallEdge, HubsOk, HubsExact, FactsLive;
    assert line in EdgeLines(nodes, edges);
    var i :| 0 <= i < |edges| && EdgeLines(nodes, edges)[i] == line;
    var e := edges[i];
    assert e in edges;
    OtherKinds(lib, nodes, f, e);
    SourceEdge(lib, nodes, f.imports, e);
  }

  /** With a captured import the lines differ from those of any up-to-date graph. */
  lemma CapturedDiffers(lib: Lib, pre: Table, n1: Table, b1: nat, f1: Facts, e1: seq<Edge>, n2: Table, b2: nat,
        f2: Facts, e2: seq<Edge>)
    requires DerivedFrom(lib, pre, n1, b1, f1, e1) && ImportersOk(pre, f1.imports) && AnyCaptured(lib, pre, f1.imports)
    requires UpToDate(lib, n2, b2, f2, e2)
    ensures CanonicalLines(n1, b1, f1, e1) != CanonicalLines(n2, b2, f2, e2)
  {
    hide DerivedFrom, UpToDate, AnyCaptured, ImportersOk, EdgeLines, BucketLines, CallLines, Ids, Image;
    var line := CapturedLine(lib, pre, n1, b1, f1, e1);
    if line in multiset(EdgeLines(n2, e2)) {
      UpToDateLines(lib, n2, b2, f2, e2, line);
    }
  }

  /**
   * An incremental reload prints the lines of a rebuild if and only if no import is captured by a hub it started from.
   */
  lemma ReloadEqualsRebuild(lib: Lib, w: Files, pre: Table, n1: Table, b1: nat, f1: Facts, e1: seq<Edge>, n2: Table,
        b2: nat, f2: Facts, e2: seq<Edge>)
    requires DerivedFrom(lib, pre, n1, b1, f1, e1) && ImportersOk(pre, f1.imports)
    requires UpToDate(lib, n2, b2, f2, e2)
    requires Represented(lib, w, Sources(n1), f1) && Represented(lib, w, Sources(n2), f2)
    requires UniqueImports(lib, Sources(n1), f1) && NothingTruncated(Sources(n1), f1)
    ensures CanonicalLines(n1, b1, f1, e1) == CanonicalLines(n2, b2, f2, e2) <==> !AnyCaptured(lib, pre, f1.imports)
  {
    hide NothingTruncated, DerivedFrom, UpToDate, Represented, UniqueImports, AnyCaptured, ImportersOk, Sources,
         CanonicalLines;
    UpToDateIffNotCaptured(lib, pre, n1, b1, f1, e1);
    if AnyCaptured(lib, pre, f1.imports) {
      CapturedDiffers(lib, pre, n1, b1, f1, e1, n2, b2, f2, e2);
    } else {
      SameWorkspaceSameLines(lib, w, n1, b1, f1, e1, n2, b2, f2, e2);
    }
  }

  // ------------------------------------------------------------------ live ends

  lemma KeepsFollows(pre: Table, nodes: Table, f: Facts)
    requires Sources(pre) == Sources(nodes) && HubsExact(nodes, f) && KeepsLive(pre, nodes, f)
    ensures Follows(pre, nodes)
  {
    hide TopicKeys;
    forall key, id | IsHubOf(pre, key, id) && HasHub(nodes, key) ensures id in nodes {
      var x :| IsHubOf(nodes, key, x);
    }
  }

  /** Both ends of every edge of a derivation are live nodes if and only if no hub it dropped takes an import. */
  lemma EndsLiveIffNoneDropped(lib: Lib, pre: Table, nodes: Table, bound: nat, f: Facts, edges: seq<Edge>)
    requires DerivedFrom(lib, pre, nodes, bound, f, edges) && ImportersOk(pre, f.imports) && KeepsLive(pre, nodes, f)
    ensures (forall e :: e in edges ==> e.from in nodes && e.to in nodes) <==> !TakenBeyond(lib, pre, f.imports, nodes)
  {
    KeepsFollows(pre, nodes, f);
    hide ImportEdge, AnyHubEdge, ImplementsEdge, CallEdge, HubsOk, HubsExact, FactsLive, ImportersOk, KeepsLive,
         FactTaken, TopicKeys;
    if TakenBeyond(lib, pre, f.imports, nodes) {
      var e := BeyondEdge(lib, pre, nodes, f.imports);
      assert DerivedEdge(lib, pre, nodes, f, e);
    } else {
      forall e | e in edges ensures e.from in nodes && e.to in nodes {
        assert DerivedEdge(lib, pre, nodes, f, e);
        if ImportEdge(lib, pre, f.imports, e) {
          KeptTarget(lib, pre, nodes, f.imports, e);
        } else {
          assert DerivedEdge(lib, Sources(nodes), nodes, f, e);
          DerivedLive(lib, nodes, f, e);
        }
      }
    }
  }

  lemma KeptTarget(lib: Lib, pre: Table, nodes: Table, imports: Buckets, e: Edge)
    requires HubsOk(lib, pre) && ImportersOk(pre, imports) && Follows(pre, nodes)
    requires !TakenBeyond(lib, pre, imports, nodes)
    requires ImportEdge(lib, pre, imports, e)
    ensures e.from in nodes && e.to in nodes
  {
    EdgeLive(lib, pre, imports, e);
    assert e.from in Sources(pre);
    if pre[e.to].package == BUS {
      assert IsHubOf(pre, pre[e.to].name, e.to);
      EdgeToHub(lib, pre, imports, e, pre[e.to].name);
    } else {
      assert e.to in Sources(pre);
    }
  }

  // ------------------------------------------------------------------ idempotence

  /** A second derivation starts from hubs that are all live, so it leaves the table alone. */
  lemma SecondTable(lib: Lib, n1: Table, b1: nat, f: Facts, e1: seq<Edge>, pre: Table, n2: Table, b2: nat,
        e2: seq<Edge>)
    requires DerivedFrom(lib, pre, n1, b1, f, e1) && DerivedFrom(lib, n1, n2, b2, f, e2)
    requires KeepsLive(n1, n2, f)
    ensures n2 == n1
  {
    hide DerivedEdge, FactsLive, TopicKeys, Distinct;
    forall id | id in n1 ensures id in n2 && n2[id] == n1[id] {}
    forall id | id in n2 ensures id in n1 {
      if n2[id].package == BUS {
        assert HasHub(n1, n2[id].name);
        var x :| IsHubOf(n1, n2[id].name, x);
        HubUnique(lib, n2, n2[id].name, id, x);
      } else {
        assert id in Sources(n2);
      }
    }
  }

  /** The first derivation neither dropped nor created a hub that takes an import. */
  ghost predicate SteadyHubs(lib: Lib, pre: Table, nodes: Table, imports: Buckets) {
    !TakenBeyond(lib, pre, imports, nodes) && !TakenBeyond(lib, nodes, imports, pre)
  }

  /**
   * From any table, a second derivation leaves the nodes as they are, and the edges as they are if and only if no hub
   * the first derivation dropped or created takes an import.
   */
  lemma Idempotent(lib: Lib, pre: Table, n1: Table, b1: nat, f: Facts, e1: seq<Edge>, n2: Table, b2: nat, e2: seq<Edge>)
    requires DerivedFrom(lib, pre, n1, b1, f, e1) && DerivedFrom(lib, n1, n2, b2, f, e2)
    requires KeepsLive(pre, n1, f) && KeepsLive(n1, n2, f) && ImportersOk(pre, f.imports) && ImportersOk(n1, f.imports)
    ensures n2 == n1
    ensures multiset(e2) == multiset(e1) <==> SteadyHubs(lib, pre, n1, f.imports)
  {
    SecondTable(lib, n1, b1, f, e1, pre, n2, b2, e2);
    KeepsFollows(pre, n1, f);
    hide ImportEdge, AnyHubEdge, ImplementsEdge, CallEdge, HubsOk, HubsExact, FactsLive, Sources, ImportersOk,
         TopicKeys, KeepsLive, TakenBeyond, Follows;
    SameImportEdges(lib, pre, n1, f.imports);
    if SteadyHubs(lib, pre, n1, f.imports) {
      forall e ensures e in e1 <==> e in e2 {}
      DistinctNoDup(e1);
      DistinctNoDup(e2);
      SameElements(e1, e2);
    } else {
      var e :| !(ImportEdge(lib, pre, f.imports, e) <==> ImportEdge(lib, n1, f.imports, e));
      ImportKind(lib, pre, f.imports, e);
      ImportKind(lib, n1, f.imports, e);
      OtherKinds(lib, n1, f, e);
      assert !(e in e1 <==> e in e2);
      assert !(e in multiset(e1) <==> e in multiset(e2));
    }
  }

  /**
   * Read by capture: from a table in which no hub captures an import, the edges stay if and only if none captures one
   * afterwards; when a hub captures before and none does afterwards, they change.
   */
  lemma SteadyByCapture(lib: Lib, pre: Table, nodes: Table, imports: Buckets)
    requires HubsOk(lib, pre) && HubsOk(lib, nodes) && ImportersOk(pre, imports) && ImportersOk(nodes, imports)
    requires Follows(pre, nodes)
    ensures !AnyCaptured(lib, pre, imports) ==>
      (SteadyHubs(lib, pre, nodes, imports) <==> !AnyCaptured(lib, nodes, imports))
    ensures AnyCaptured(lib, pre, imports) && !AnyCaptured(lib, nodes, imports) ==>
      !SteadyHubs(lib, pre, nodes, imports)
  {
    hide ImportEdge, HubsOk, ImportersOk, TakenBeyond, AnyCaptured;
    SameImportEdges(lib, pre, nodes, imports);
    HubsShowIffCaptured(lib, pre, imports);
    HubsShowIffCaptured(lib, nodes, imports);
  }

  /** From the second derivation on, nothing changes any more, captured imports or not. */
  lemma SettledAfterTwo(lib: Lib, pre: Table, n1: Table, b1: nat, f: Facts, e1: seq<Edge>, n2: Table, b2: nat,
        e2: seq<Edge>, n3: Table, b3: nat, e3: seq<Edge>)
    requires DerivedFrom(lib, pre, n1, b1, f, e1) && DerivedFrom(lib, n1, n2, b2, f, e2)
    requires DerivedFrom(lib, n2, n3, b3, f, e3)
    requires KeepsLive(n1, n2, f)
    requires KeepsLive(n2, n3, f)
    ensures n3 == n2 && multiset(e3) == multiset(e2)
  {
    SecondTable(lib, n1, b1, f, e1, pre, n2, b2, e2);
    SecondTable(lib, n2, b2, f, e2, n1, n3, b3, e3);
    hide DerivedEdge, HubsOk, HubsExact, FactsLive, Sources, TopicKeys;
    DistinctNoDup(e2);
    DistinctNoDup(e3);
    SameElements(e2, e3);
  }

  // ------------------------------------------------------------------ the operations

  /** One batch of file changes. */
  datatype Batch = Batch(changed: seq<(string, FileIndex)>, deleted: set<string>) {
    function Paths(): set<string> {
      (set i | 0 <= i < |changed| :: changed[i].0) + deleted
    }

    /** Each changed file appears once, and its facts are its own. */
    ghost predicate Ok() {
      && (forall i, j :: 0 <= i < j < |changed| ==> changed[i].0 != changed[j].0)
      && (forall i :: 0 <= i < |changed| ==> changed[i].1.Ok(changed[i].0))
    }

    /** The workspace after the batch. */
    ghost function Update(w: Files): Files {
      Fold(w - Paths(), changed)
    }
  }

  ghost function Fold(w: Files, changed: seq<(string, FileIndex)>): Files {
    if changed == [] then w
    else Fold(w, changed[..|changed| - 1])[changed[|changed| - 1].0 := changed[|changed| - 1].1]
  }

  lemma {:induction false} FoldKeys(w: Files, changed: seq<(string, FileIndex)>)
    ensures forall path :: path in Fold(w, changed) <==> path in w || exists i ::
      0 <= i < |changed| && changed[i].0 == path
    ensures FilesOk(w) && (forall i :: 0 <= i < |changed| ==> changed[i].1.Ok(changed[i].0)) ==>
      FilesOk(Fold(w, changed))
  {
    if changed != [] {
      FoldKeys(w, changed[..|changed| - 1]);
    }
  }

  lemma FoldLast(w: Files, files: seq<(string, FileIndex)>, last: (string, FileIndex))
    ensures Fold(w, files + [last]) == Fold(w, files)[last.0 := last.1]
  {
    assert (files + [last])[..|files|] == files;
  }

  lemma {:induction false} FoldAt(w: Files, changed: seq<(string, FileIndex)>, path: string)
    requires forall i, j :: 0 <= i < j < |changed| ==> changed[i].0 != changed[j].0
    ensures forall i :: 0 <= i < |changed| && changed[i].0 == path ==>
      path in Fold(w, changed) && Fold(w, changed)[path] == changed[i].1
    ensures (forall i :: 0 <= i < |changed| ==> changed[i].0 != path) ==>
      (path in Fold(w, changed) <==> path in w) && (path in w ==> Fold(w, changed)[path] == w[path])
  {
    if changed != [] {
      FoldAt(w, changed[..|changed| - 1], path);
    }
  }

  /** After a batch a changed file is as changed, a deleted one is gone and every other is as before. */
  lemma UpdateMeans(batch: Batch, w: Files, path: string)
    requires batch.Ok()
    ensures forall i :: 0 <= i < |batch.changed| && batch.changed[i].0 == path ==>
      path in batch.Update(w) && batch.Update(w)[path] == batch.changed[i].1
    ensures (forall i :: 0 <= i < |batch.changed| ==> batch.changed[i].0 != path) ==>
      (path in batch.Update(w) <==> path in w && path !in batch.deleted)
      && (path in batch.Update(w) ==> path in w && batch.Update(w)[path] == w[path])
  {
    hide FileIndex.Ok;
    FoldAt(w - batch.Paths(), batch.changed, path);
  }

  /** The graph holds the workspace's facts. */
  ghost predicate Holds(g: ContractGraph, w: Files)
    reads g
  {
    g.Sound() && FilesOk(w) && Represented(g.lib, w, Sources(g.nodes), g.Recorded())
  }

  /** The table, next id and facts once the files are folded in order. */
  ghost function Stacked(lib: Lib, start: (Table, nat, Facts), changed: seq<(string, FileIndex)>): (Table, nat, Facts) {
    if changed == [] then start
    else
      var before, fi := Stacked(lib, start, changed[..|changed| - 1]), changed[|changed| - 1].1;
      (Block(before.0, before.1, fi.nodes), before.1 + |fi.nodes|, Added(lib, before.2, before.1, fi))
  }

  lemma StackNone(lib: Lib, start: (Table, nat, Facts))
    ensures Stacked(lib, start, []) == start
  {
  }

  lemma StackOne(lib: Lib, start: (Table, nat, Facts), files: seq<(string, FileIndex)>, last: (string, FileIndex))
    ensures
      var before := Stacked(lib, start, files);
      Stacked(lib, start, files + [last])
      == (Block(before.0, before.1, last.1.nodes), before.1 + |last.1.nodes|, Added(lib, before.2, before.1, last.1))
  {
    hide Block, Added;
    assert (files + [last])[..|files|] == files;
  }

  /** Folds the changed files, none of which the graph holds yet. */
  method FoldAll(g: ContractGraph, changed: seq<(string, FileIndex)>, ghost w: Files)
    requires Holds(g, w)
    requires forall i, j :: 0 <= i < j < |changed| ==> changed[i].0 != changed[j].0
    requires forall i :: 0 <= i < |changed| ==> changed[i].1.Ok(changed[i].0) && changed[i].0 !in w
    modifies g
    ensures Holds(g, Fold(w, changed))
    ensures HubsKept(old(g.nodes), g.nodes)
    ensures (g.nodes, g.nextNodeId, g.Recorded())
      == Stacked(g.lib, (old(g.nodes), old(g.nextNodeId), old(g.Recorded())), changed)
  {
    hide Holds, Added, Block, HubsKept, FileIndex.Ok;
    ghost var start := (g.nodes, g.nextNodeId, g.Recorded());
    assert HubsKept(g.nodes, g.nodes) by { HubsKeptSame(g.nodes); }
    for i := 0 to |changed|
      invariant Holds(g, Fold(w, changed[..i]))
      invariant HubsKept(old(g.nodes), g.nodes)
      invariant (g.nodes, g.nextNodeId, g.Recorded()) == Stacked(g.lib, start, changed[..i])
    {
      FoldKeys(w, changed[..i]);
      assert changed[..i + 1][..i] == changed[..i];
      ghost var before := g.nodes;
      FoldOne(g, changed[i].0, changed[i].1, Fold(w, changed[..i]));
      HubsKeptTwice(old(g.nodes), before, g.nodes);
    }
    assert changed[..|changed|] == changed;
  }

  lemma HubsKeptSame(nodes: Table)
    ensures HubsKept(nodes, nodes)
  {
  }

  lemma HubsKeptTwice(a: Table, b: Table, c: Table)
    requires HubsKept(a, b) && HubsKept(b, c)
    ensures HubsKept(a, c)
  {
  }

  /** Folds one file the graph does not hold yet. */
  method FoldOne(g: ContractGraph, path: string, fi: FileIndex, ghost w: Files)
    requires Holds(g, w) && path !in w && fi.Ok(path)
    modifies g
    ensures Holds(g, w[path := fi]) && HubsKept(old(g.nodes), g.nodes)
    ensures g.nodes == Block(old(g.nodes), old(g.nextNodeId), fi.nodes)
    ensures g.nextNodeId == old(g.nextNodeId) + |fi.nodes|
    ensures g.Recorded() == Added(g.lib, old(g.Recorded()), old(g.nextNodeId), fi)
  {
    hide Represented, Coherent, HubsOk, FactsLive, KeysFolded, Added, Block, Sources;
    SourcesBelow(g.nodes, g.nextNodeId);
    RepresentsAdd(g.lib, w, Sources(g.nodes), g.Recorded(), g.nextNodeId, path, fi);
    BlockHubs(g.nodes, g.nextNodeId, path, fi);
    Apply(g, fi, path);
  }

  /** The same ids are hubs, of the same keys. */
  ghost predicate HubsKept(before: Table, after: Table) {
    forall id, key :: IsHubOf(before, key, id) <==> IsHubOf(after, key, id)
  }

  ghost predicate HubsWithin(part: Table, whole: Table) {
    forall id, key :: IsHubOf(part, key, id) ==> IsHubOf(whole, key, id)
  }

  lemma SourcesBelow(nodes: Table, bound: nat)
    requires Below(nodes, bound)
    ensures Below(Sources(nodes), bound)
  {
  }

  lemma BlockHubs(nodes: Table, base: Id, path: string, fi: FileIndex)
    requires Below(nodes, base) && fi.Ok(path)
    ensures HubsKept(nodes, Block(nodes, base, fi.nodes))
  {
    hide Block;
  }

  /** Purges the batch's files and everything recorded about them. */
  method Purge(g: ContractGraph, files: set<string>, ghost w: Files)
    requires Holds(g, w)
    modifies g
    ensures Holds(g, w - files)
    ensures HubsWithin(g.nodes, old(g.nodes))
    ensures BUS !in files ==> HubsKept(old(g.nodes), g.nodes)
    ensures BUS in files ==> forall key :: !HasHub(g.nodes, key)
  {
    hide Represented, Coherent, RetainFacts, NoEmptyFacts;
    ghost var stale := DeclaredIn(g.nodes, files);
    PurgeSound(g.lib, g.nodes, g.Recorded(), stale);
    RepresentsPurge(g.lib, w, Sources(g.nodes), g.Recorded(), files, stale);
    PurgeHubs(g.nodes, files);
    g.PatchFiles(files);
  }

  lemma PurgeHubs(nodes: Table, files: set<string>)
    ensures HubsWithin(nodes - DeclaredIn(nodes, files), nodes)
    ensures BUS !in files ==> HubsKept(nodes, nodes - DeclaredIn(nodes, files))
    ensures BUS in files ==> forall key :: !HasHub(nodes - DeclaredIn(nodes, files), key)
  {
  }

  lemma PurgeSound(lib: Lib, nodes: Table, f: Facts, stale: set<Id>)
    requires HubsOk(lib, nodes) && FactsLive(f, Sources(nodes)) && KeysFolded(lib, f)
    ensures HubsOk(lib, nodes - stale) && Sources(nodes - stale) == Sources(nodes) - stale
    ensures FactsLive(RetainFacts(f, stale), Sources(nodes - stale)) && KeysFolded(lib, RetainFacts(f, stale))
  {
    assert Sources(nodes - stale) == Sources(nodes) - stale;
    RetainedLive(f, stale, Sources(nodes));
  }

  /** What a derivation over a represented workspace leaves, and exactly when it is what a build from scratch leaves. */
  ghost predicate Derived(g: ContractGraph, w: Files, pre: Table)
    reads g
  {
    && Holds(g, w) && ImportersOk(pre, g.reverseDeps) && KeepsLive(pre, g.nodes, g.Recorded())
    && DerivedFrom(g.lib, pre, g.nodes, g.nextNodeId, g.Recorded(), g.edges)
    && (UpToDate(g.lib, g.nodes, g.nextNodeId, g.Recorded(), g.edges) <==> !AnyCaptured(g.lib, pre, g.reverseDeps))
  }

  method Derive(g: ContractGraph, ghost w: Files)
    requires Holds(g, w)
    modifies g
    ensures Derived(g, w, old(g.nodes)) && g.Recorded() == old(g.Recorded())
    ensures (forall e :: e in g.edges ==> e.from in g.nodes && e.to in g.nodes)
      <==> !TakenBeyond(g.lib, old(g.nodes), g.reverseDeps, g.nodes)
  {
    hide Represented, Coherent, HubsOk, FactsLive, KeysFolded, Sources, DerivedEdge, AnyCaptured, ImportersOk,
         HubsExact, NoEmptyFacts, UpToDate, TopicKeys, HandlerRpc, Distinct, LibOk, Below, FilesOk, KeepsLive,
           TakenBeyond;
    ImportersFromFiles(g.lib, w, g.nodes, g.Recorded());
    g.ReconcileEdges();
    UpToDateIffNotCaptured(g.lib, old(g.nodes), g.nodes, g.nextNodeId, g.Recorded(), g.edges);
    EndsLiveIffNoneDropped(g.lib, old(g.nodes), g.nodes, g.nextNodeId, g.Recorded(), g.edges);
  }

  /**
   * Deriving twice, from any graph: the second derivation leaves the nodes as they are, and the edges as they are if
   * and only if no hub the first one dropped or created takes an import.
   */
  method DeriveTwice(g: ContractGraph, ghost w: Files) returns (ghost first: seq<Edge>)
    requires Holds(g, w)
    modifies g
    ensures Derived(g, w, g.nodes) && g.Recorded() == old(g.Recorded())
    ensures KeepsLive(old(g.nodes), g.nodes, g.Recorded())
    ensures multiset(g.edges) == multiset(first) <==> SteadyHubs(g.lib, old(g.nodes), g.nodes, g.reverseDeps)
    ensures DerivedFrom(g.lib, old(g.nodes), g.nodes, g.nextNodeId, g.Recorded(), first)
  {
    hide Holds, UpToDate, DerivedEdge, AnyCaptured, ImportersOk, HubsExact, KeepsLive, Sources, HubsOk, FactsLive,
         NoEmptyFacts, Distinct, Below, SteadyHubs, TakenBeyond;
    ghost var pre := g.nodes;
    Derive(g, w);
    ghost var n1, b1 := g.nodes, g.nextNodeId;
    first := g.edges;
    Derive(g, w);
    Idempotent(g.lib, pre, n1, b1, g.Recorded(), first, g.nodes, g.nextNodeId, g.edges);
    assert DerivedFrom(g.lib, n1, g.nodes, g.nextNodeId, g.Recorded(), g.edges);
  }

  /**
   * One incremental reload. The graph then holds the updated workspace; `pre` is the table derivation started from,
   * and the edges are those of a rebuild exactly when no import is captured by one of its hubs.
   */
  method ReloadBatch(g: ContractGraph, batch: Batch, ghost w: Files) returns (ghost pre: Table)
    requires Holds(g, w) && batch.Ok()
    modifies g
    ensures Derived(g, batch.Update(w), pre)
    ensures NoNewHubs(old(g.nodes), pre) && (BUS !in batch.Paths() ==> HubsKept(old(g.nodes), pre))
    ensures forall key :: HasHub(pre, key) <==> BUS !in batch.Paths() && HasHub(old(g.nodes), key)
  {
    hide Holds, Derived, HasHub, IsHubOf, Stacked;
    Purge(g, batch.Paths(), w);
    ghost var purged := g.nodes;
    forall i | 0 <= i < |batch.changed| ensures batch.changed[i].0 !in w - batch.Paths() {
      assert batch.changed[i].0 in batch.Paths();
    }
    FoldAll(g, batch.changed, w - batch.Paths());
    pre := g.nodes;
    OnlyOldHubs(old(g.nodes), purged, pre);
    SameHubs(purged, pre);
    if BUS !in batch.Paths() {
      SameHubs(old(g.nodes), purged);
    }
    Derive(g, batch.Update(w));
  }

  ghost predicate NoNewHubs(before: Table, after: Table) {
    forall key :: HasHub(after, key) ==> HasHub(before, key)
  }

  lemma OnlyOldHubs(before: Table, purged: Table, folded: Table)
    requires HubsWithin(purged, before) && HubsKept(purged, folded)
    ensures NoNewHubs(before, folded)
  {
    forall key | HasHub(folded, key) ensures HasHub(before, key) {
      var id :| IsHubOf(folded, key, id);
      assert IsHubOf(before, key, id);
    }
  }

  lemma SameHubs(before: Table, after: Table)
    requires HubsKept(before, after)
    ensures forall key :: HasHub(before, key) <==> HasHub(after, key)
  {
    forall key ensures HasHub(before, key) <==> HasHub(after, key) {
      if id :| IsHubOf(before, key, id) {
        assert IsHubOf(after, key, id);
      }
      if id :| IsHubOf(after, key, id) {
        assert IsHubOf(before, key, id);
      }
    }
  }

  lemma ImportersFromFiles(lib: Lib, w: Files, nodes: Table, f: Facts)
    requires FilesOk(w) && Represented(lib, w, Sources(nodes), f) && FactsLive(f, Sources(nodes))
    ensures ImportersOk(nodes, f.imports)
  {
    hide FactsOf, Sources, Placed, FilesOk, FactsLive, NO_REPO;
    ImportersLive(f, Sources(nodes));
    var origin: map<Id, (string, nat)> :| Represents(lib, w, origin, Sources(nodes), f);
    hide Represented;
    assert forall id :: id in Sources(nodes) ==> id in nodes by { SourcesLive(nodes); }
    forall id | id in Sources(nodes) ensures nodes[id].repo != NO_REPO {
      SourceRepo(w, origin, nodes, id);
    }
  }

  lemma SourcesLive(nodes: Table)
    ensures forall id :: id in Sources(nodes) ==> id in nodes
  {
  }

  lemma ImportersLive(f: Facts, src: Table)
    requires FactsLive(f, src)
    ensures forall t, id :: id in At(f.imports, t) ==> id in src
  {
  }

  lemma SourceRepo(w: Files, origin: map<Id, (string, nat)>, nodes: Table, id: Id)
    requires FilesOk(w) && Placed(w, origin, Sources(nodes)) && id in Sources(nodes)
    ensures nodes[id].repo != NO_REPO
  {
    assert id in origin && HandleOk(w, origin[id]);
    assert w[origin[id].0].Ok(origin[id].0);
    assert Sources(nodes)[id] == nodes[id];
  }

  /** A build from scratch, in any file order, is up to date. */
  method Rebuild(lib: Lib, files: seq<(string, FileIndex)>) returns (g: ContractGraph)
    requires LibOk(lib)
    requires forall i, j :: 0 <= i < j < |files| ==> files[i].0 != files[j].0
    requires forall i :: 0 <= i < |files| ==> files[i].1.Ok(files[i].0)
    ensures fresh(g) && g.lib == lib && Holds(g, Fold(map[], files))
    ensures UpToDate(lib, g.nodes, g.nextNodeId, g.Recorded(), g.edges)
  {
    hide Holds, HasHub, HubsExact, UpToDate, KeepsLive, ImportersOk, AnyCaptured, Sources, DerivedFrom, LibOk;
    g := New(lib);
    var batch := Batch(files, {});
    ghost var none: Files := map[];
    assert none - batch.Paths() == none;
    ghost var pre := ReloadBatch(g, batch, none);
    NoHubsNoCapture(lib, pre, g.reverseDeps);
  }

  method New(lib: Lib) returns (g: ContractGraph)
    requires LibOk(lib)
    ensures fresh(g) && g.lib == lib && Holds(g, map[]) && g.nodes == map[] && g.nextNodeId == 0
    ensures g.Recorded() == NO_FACTS
  {
    hide Coherent, Represented, HubsOk, FactsLive, KeysFolded;
    g := new ContractGraph(lib);
    EmptyRepresented(lib);
    EmptySound(lib);
    assert Sources(g.nodes) == map[];
  }

  lemma EmptySound(lib: Lib)
    ensures HubsOk(lib, map[]) && FactsLive(NO_FACTS, map[]) && KeysFolded(lib, NO_FACTS)
  {
  }

  lemma NoHubsNoCapture(lib: Lib, pre: Table, imports: Buckets)
    requires NoNewHubs(map[], pre)
    ensures !AnyCaptured(lib, pre, imports)
  {
    hide Captured;
  }

  // ------------------------------------------------------------------ any sequence of batches

  /** After a derivation, a key has a hub if and only if some file of the workspace names it. */
  lemma HubIffNamed(g: ContractGraph, w: Files, key: string)
    requires Holds(g, w) && HubsExact(g.nodes, g.Recorded())
    ensures HasHub(g.nodes, key) <==> Named(g.lib, w, key)
  {
    hide Represented, Coherent, HubsOk, KeysFolded;
    HubIffTopic(g.nodes, g.Recorded(), key);
    TopicIffNamed(g.lib, w, Sources(g.nodes), g.Recorded(), key);
  }

  lemma HoldsParts(g: ContractGraph, w: Files)
    requires Holds(g, w)
    ensures Represented(g.lib, w, Sources(g.nodes), g.Recorded())
  {
    hide Represented, Coherent, HubsOk, FactsLive, KeysFolded;
  }

  lemma HubsExactAfter(g: ContractGraph, w: Files, pre: Table)
    requires Derived(g, w, pre)
    ensures Holds(g, w) && HubsExact(g.nodes, g.Recorded())
  {
    hide Holds, UpToDate, AnyCaptured, ImportersOk, KeepsLive, HubsExact, HubsOk, FactsLive, NoEmptyFacts, DerivedEdge;
  }

  lemma UpToDateHubs(g: ContractGraph)
    requires UpToDate(g.lib, g.nodes, g.nextNodeId, g.Recorded(), g.edges)
    ensures HubsExact(g.nodes, g.Recorded())
  {
    hide DerivedEdge, HubsOk, HubsExact, FactsLive;
  }

  lemma DerivedParts(g: ContractGraph, w: Files, pre: Table)
    requires Derived(g, w, pre)
    ensures Holds(g, w) && DerivedFrom(g.lib, pre, g.nodes, g.nextNodeId, g.Recorded(), g.edges)
  {
    hide Holds, UpToDate, AnyCaptured, ImportersOk, KeepsLive, DerivedFrom;
  }

  /** The workspace after a sequence of batches. */
  ghost function UpdateAll(w: Files, batches: seq<Batch>): Files {
    if batches == [] then w else batches[|batches| - 1].Update(UpdateAll(w, batches[..|batches| - 1]))
  }

  /**
   * The files whose topics still have hubs when the last batch derives: the files before that batch, or none when it
   * purges the path the hubs carry.
   */
  ghost function HubFiles(w: Files, batches: seq<Batch>): Files
    requires batches != []
  {
    if BUS in batches[|batches| - 1].Paths() then map[] else UpdateAll(w, batches[..|batches| - 1])
  }

  /**
   * The hub of a named topic is an event stream of the reserved package, file and repository, with the key as its name.
   */
  lemma HubShape(g: ContractGraph, w: Files, key: string)
    requires Holds(g, w) && HubsExact(g.nodes, g.Recorded()) && Named(g.lib, w, key)
    ensures Node(key, EventStream, "event-bus", 1, 1, "event-bus", 65535, Some("topic://" + key),
      None) in g.nodes.Values
  {
    hide Holds, HubsExact, Named;
    HubIffNamed(g, w, key);
    var id :| IsHubOf(g.nodes, key, id);
    assert id in g.nodes;
  }

  lemma NothingNamed(lib: Lib, key: string)
    ensures !Named(lib, map[], key)
  {
  }

  /**
   * Every sequence of reloads, from a graph whose hubs are exact or over more than one batch: the graph holds the
   * current workspace, its last derivation started from hubs of exactly the topics named before the last batch, and its
   * edges are those of a rebuild if and only if none of those topics captures an import of the current files.
   */
  method ReloadAll(g: ContractGraph, batches: seq<Batch>, ghost w: Files) returns (ghost pre: Table)
    requires Holds(g, w) && |batches| > 0 && forall i :: 0 <= i < |batches| ==> batches[i].Ok()
    modifies g
    ensures Derived(g, UpdateAll(w, batches), pre)
    ensures |batches| > 1 || old(HubsExact(g.nodes, g.Recorded())) ==>
      && (forall key :: HasHub(pre, key) <==> Named(g.lib, HubFiles(w, batches), key))
      && (UpToDate(g.lib, g.nodes, g.nextNodeId, g.Recorded(), g.edges)
          <==> !CapturedBy(g.lib, HubFiles(w, batches), UpdateAll(w, batches)))
  {
    hide DerivedFrom, UpToDate, AnyCaptured, ImportersOk, Represented, KeepsLive, NoNewHubs, Holds, HubsExact, HasHub,
         Named, HubsKept, CapturedBy;
    for i := 0 to |batches| - 1
      invariant Holds(g, UpdateAll(w, batches[..i]))
      invariant i > 0 || old(HubsExact(g.nodes, g.Recorded())) ==> HubsExact(g.nodes, g.Recorded())
    {
      assert batches[..i + 1][..i] == batches[..i];
      ghost var start := ReloadBatch(g, batches[i], UpdateAll(w, batches[..i]));
      HubsExactAfter(g, UpdateAll(w, batches[..i + 1]), start);
    }
    var last := |batches| - 1;
    ghost var before := UpdateAll(w, batches[..last]);
    ghost var exact := HubsExact(g.nodes, g.Recorded());
    if exact {
      forall key { HubIffNamed(g, before, key); }
    }
    pre := ReloadBatch(g, batches[last], before);
    if exact {
      forall key { NothingNamed(g.lib, key); }
      CapturedReadOff(g, HubFiles(w, batches), UpdateAll(w, batches), pre);
    }
  }

  lemma CapturedReadOff(g: ContractGraph, topics: Files, w: Files, pre: Table)
    requires Derived(g, w, pre) && forall key :: HasHub(pre, key) <==> Named(g.lib, topics, key)
    ensures AnyCaptured(g.lib, pre, g.reverseDeps) <==> CapturedBy(g.lib, topics, w)
  {
    hide UpToDate, AnyCaptured, ImportersOk, Represented, KeepsLive, HubsExact, HasHub, Named, CapturedBy, DerivedEdge,
         FactsLive, Sources, HubsOk, NoEmptyFacts, Distinct, Coherent;
    CapturedIffByFiles(g.lib, topics, w, pre, g.Recorded());
  }

  /**
   * The whole claim about two live graphs: however `g` got here, it prints what a build of the same files in any
   * order prints, if and only if no import of the workspace is captured by a hub it started its last derivation from.
   */
  lemma ReloadPrintsRebuild(g: ContractGraph, h: ContractGraph, w: Files, pre: Table)
    requires Derived(g, w, pre) && Holds(h, w) && g.lib == h.lib && UniqueImports(g.lib, Sources(g.nodes), g.Recorded())
    requires NothingTruncated(Sources(g.nodes), g.Recorded())
    requires UpToDate(h.lib, h.nodes, h.nextNodeId, h.Recorded(), h.edges)
    ensures Lines(g) == Lines(h) <==> !AnyCaptured(g.lib, pre, g.reverseDeps)
  {
    hide DerivedFrom, UpToDate, AnyCaptured, NothingTruncated, ImportersOk, Sources, Represented, HubsExact,
         CanonicalLines, UniqueImports;
    ReloadEqualsRebuild(g.lib, w, pre, g.nodes, g.nextNodeId, g.Recorded(), g.edges, h.nodes, h.nextNodeId,
      h.Recorded(), h.edges);
  }

  ghost predicate DistinctOk(files: seq<(string, FileIndex)>) {
    && (forall i, j :: 0 <= i < j < |files| ==> files[i].0 != files[j].0)
    && (forall i :: 0 <= i < |files| ==> files[i].1.Ok(files[i].0))
  }

  function Lines(g: ContractGraph): Canonical.Lines
    reads g
  {
    CanonicalLines(g.nodes, g.nextNodeId, g.Recorded(), g.edges)
  }

  /** The conditions on the files, met by every graph that holds them. */
  lemma ComparableGraph(g: ContractGraph, w: Files, pre: Table)
    requires Derived(g, w, pre) && Comparable(g.lib, w)
    ensures NothingTruncated(Sources(g.nodes), g.Recorded()) && UniqueImports(g.lib, Sources(g.nodes), g.Recorded())
  {
    hide UpToDate, AnyCaptured, ImportersOk, Represented, KeepsLive, HubsExact, DerivedEdge, FactsLive, Sources, HubsOk,
         NoEmptyFacts, Distinct, Coherent, NothingTruncated, UniqueImports, PairsOnce, Untruncated;
    UniqueInGraph(g.lib, w, Sources(g.nodes), g.Recorded());
    UntruncatedInGraph(g.lib, w, Sources(g.nodes), g.Recorded());
  }

  /**
   * Any sequence of batches from an empty graph, against one build of the final files in any order. The lines differ
   * when an import of the final files is captured by a topic named before the last batch; when none is, and each
   * imported pair is declared once and no subscription is truncated, they are the same. So they are when no import is
   * spelled like such a topic.
   */
  method EditThenCompare(lib: Lib, batches: seq<Batch>, final: seq<(string, FileIndex)>)
    returns (g: ContractGraph, h: ContractGraph, ghost pre: Table)
    requires LibOk(lib) && DistinctOk(final) && |batches| > 0 && forall i :: 0 <= i < |batches| ==> batches[i].Ok()
    requires UpdateAll(map[], batches) == Fold(map[], final)
    ensures g.lib == lib && h.lib == lib && Derived(g, Fold(map[], final), pre) && Holds(h, Fold(map[], final))
    ensures UpToDate(lib, h.nodes, h.nextNodeId, h.Recorded(), h.edges)
    ensures forall key :: HasHub(pre, key) <==> Named(lib, HubFiles(map[], batches), key)
    ensures CapturedBy(lib, HubFiles(map[], batches), Fold(map[], final)) ==> Lines(g) != Lines(h)
    ensures Comparable(lib, Fold(map[], final)) ==>
      (Lines(g) == Lines(h) <==> !CapturedBy(lib, HubFiles(map[], batches), Fold(map[], final)))
    ensures Comparable(lib, Fold(map[], final)) && SpelledApart(lib, HubFiles(map[], batches), Fold(map[], final)) ==>
      Lines(g) == Lines(h)
  {
    hide Holds, UpToDate, DerivedFrom, AnyCaptured, NothingTruncated, UniqueImports, ImportersOk, HubsExact, Sources,
         CanonicalLines, LibOk, UpdateAll, Fold, HubFiles, CapturedBy, Comparable, SpelledApart, KeepsLive, HasHub,
           Named;
    ghost var none: Files := map[];
    ghost var w := Fold(none, final);
    g := New(lib);
    EmptyExact();
    pre := ReloadAll(g, batches, none);
    h := Rebuild(lib, final);
    CapturedReadOff(g, HubFiles(none, batches), w, pre);
    CompareLines(g, h, w, pre);
    if SpelledApart(lib, HubFiles(none, batches), w) {
      ApartUncaptured(lib, HubFiles(none, batches), w);
    }
  }

  lemma EmptyExact()
    ensures HubsExact(map[], NO_FACTS)
  {
  }

  /** A derived graph against an up-to-date one of the same files. */
  lemma CompareLines(g: ContractGraph, h: ContractGraph, w: Files, pre: Table)
    requires Derived(g, w, pre) && Holds(h, w) && g.lib == h.lib
    requires UpToDate(h.lib, h.nodes, h.nextNodeId, h.Recorded(), h.edges)
    ensures AnyCaptured(g.lib, pre, g.reverseDeps) ==> Lines(g) != Lines(h)
    ensures Comparable(g.lib, w) ==> (Lines(g) == Lines(h) <==> !AnyCaptured(g.lib, pre, g.reverseDeps))
  {
    hide Holds, UpToDate, DerivedFrom, AnyCaptured, NothingTruncated, UniqueImports, ImportersOk, Sources,
         CanonicalLines, Comparable, KeepsLive;
    if AnyCaptured(g.lib, pre, g.reverseDeps) {
      CapturedDiffers(g.lib, pre, g.nodes, g.nextNodeId, g.Recorded(), g.edges, h.nodes, h.nextNodeId, h.Recorded(),
        h.edges);
    }
    if Comparable(g.lib, w) {
      ComparableGraph(g, w, pre);
      ReloadPrintsRebuild(g, h, w, pre);
    }
  }
}
