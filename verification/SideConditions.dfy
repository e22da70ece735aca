/** Runs in which the reload laws fail: a captured import, and a pair declared twice. */
module SideConditions {
  import opened Text
  import opened Seqs
  import opened ImportPass
  import opened RpcMeaning
  import opened GraphModel
  import opened Imports
  import opened ImportMeaning
  import opened Renaming
  import opened Reconciled
  import opened Capture
  import opened Graph
  import opened Workspace
  import opened Canonical
  import opened Convergence
  import opened Places
  import opened Reload

  // ------------------------------------------------------------------ the first homonym

  /** Whatever ids the nodes were given, the import resolves to the same nodes. */
  ghost predicate OrderFree(lib: Lib, nodes: Table, repo: nat, dir: Option<string>, t: string) {
    forall phi, n2 :: Iso(phi, nodes, n2) ==>
      SameOutcome(phi, Meaning(lib, nodes, repo, dir, t), Meaning(lib, n2, repo, dir, t))
  }

  /** Exchanges two ids. */
  ghost function Swap(nodes: Table, a: Id, b: Id): (phi: map<Id, Id>)
    requires a in nodes && b in nodes
    ensures phi.Keys == nodes.Keys && Injective(phi) && phi[a] == b && phi[b] == a
    ensures forall id :: id in phi ==> id in phi.Values && phi[id] in nodes && phi[phi[id]] == id
  {
    var phi := map id | id in nodes :: if id == a then b else if id == b then a else id;
    assert forall id :: id in phi ==> phi[phi[id]] == id;
    phi
  }

  lemma SwapIso(nodes: Table, a: Id, b: Id)
    requires a in nodes && b in nodes
    ensures Iso(Swap(nodes, a, b), nodes, nodes[a := nodes[b]][b := nodes[a]])
  {
  }

  /** Two declarations of the imported name: exchanging the ids of the first and another changes the answer. */
  lemma SwappedHomonyms(lib: Lib, nodes: Table, repo: nat, dir: Option<string>, t: string, package: string,
        name: string)
    requires !IsPath(t) && SplitQualified(t) == Some((package, name)) && !DeclaredOnce(lib, nodes, package, name)
    ensures !OrderFree(lib, nodes, repo, dir, t)
  {
    hide Iso, SplitQualified, Meaning, Listing, Injective, DeclaredOnce;
    var exact := Listing(lib, ByName, InPackage(nodes, package), name);
    var a, b := Homonyms(lib, nodes, package, name);
    var phi, n2 := Swap(nodes, a, b), nodes[a := nodes[b]][b := nodes[a]];
    SwapIso(nodes, a, b);
    SwapListing(lib, nodes, package, name, a, b);
    FirstHomonym(lib, nodes, repo, dir, t, package, name, a);
    FirstHomonym(lib, n2, repo, dir, t, package, name, a);
    assert !Corr(phi, {a}, {a});
  }

  /** The first declaration in id order, and another one. */
  lemma Homonyms(lib: Lib, nodes: Table, package: string, name: string) returns (a: Id, b: Id)
    requires !DeclaredOnce(lib, nodes, package, name)
    ensures
      var exact := Listing(lib, ByName, InPackage(nodes, package), name);
      IsLeast(a, exact) && b in exact && a != b && a in nodes && b in nodes
  {
    hide Multiplicity;
    var exact := Listing(lib, ByName, InPackage(nodes, package), name);
    a := LeastExists(exact);
    b :| b in exact && b != a;
  }

  lemma SwapListing(lib: Lib, nodes: Table, package: string, name: string, a: Id, b: Id)
    requires a in Listing(lib, ByName, InPackage(nodes, package), name)
    requires b in Listing(lib, ByName, InPackage(nodes, package), name)
    ensures Listing(lib, ByName, InPackage(nodes[a := nodes[b]][b := nodes[a]], package), name)
      == Listing(lib, ByName, InPackage(nodes, package), name)
  {
    hide Multiplicity;
  }

  /** A qualified import resolves to the first declaration in id order, alone. */
  lemma FirstHomonym(lib: Lib, nodes: Table, repo: nat, dir: Option<string>, t: string, package: string, name: string,
        a: Id)
    requires !IsPath(t) && SplitQualified(t) == Some((package, name))
    requires IsLeast(a, Listing(lib, ByName, InPackage(nodes, package), name))
    ensures Meaning(lib, nodes, repo, dir, t).ids == {a}
  {
    hide SplitQualified, Bare, Listing;
    var exact := Listing(lib, ByName, InPackage(nodes, package), name);
    assert (set id | id in exact && IsLeast(id, exact)) == {a};
  }

  /** A qualified import resolves independently of the ids if and only if its pair is declared at most once. */
  lemma OrderFreeIffDeclaredOnce(lib: Lib, nodes: Table, repo: nat, dir: Option<string>, t: string)
    ensures OrderFree(lib, nodes, repo, dir, t) <==> ImportDeclaredOnce(lib, nodes, t)
  {
    hide DeclaredOnce, Meaning, SplitQualified, Iso;
    if ImportDeclaredOnce(lib, nodes, t) {
      forall phi, n2 | Iso(phi, nodes, n2)
        ensures SameOutcome(phi, Meaning(lib, nodes, repo, dir, t), Meaning(lib, n2, repo, dir, t))
      {
        MeaningIso(phi, lib, nodes, n2, repo, dir, t);
      }
    } else {
      var (package, name) := SplitQualified(t).value;
      SwappedHomonyms(lib, nodes, repo, dir, t, package, name);
    }
  }

  // ------------------------------------------------------------------ a captured import

  lemma SeparatorHasColons(t: string)
    ensures LastPathSeparator(t).Some? ==> ':' in t
  {
    var r := LastPathSeparator(t);
    if r.Some? {
      assert t[r.value] == t[r.value..r.value + 2][0] == ':';
    }
  }

  lemma NodePrefixHasColon(t: string)
    ensures "node:" <= t ==> ':' in t
  {
    if "node:" <= t {
      assert t[4] == "node:"[4] == ':';
    }
  }

  predicate PlainName(t: string) {
    ':' !in t && '.' !in t && '/' !in t && t !in BUILTINS
  }

  lemma PlainMeans(t: string)
    requires PlainName(t)
    ensures QualifiedPart(t).None? && !IsBuiltin(t)
  {
    hide SplitOnce, RSplitOnce, BUILTINS;
    SeparatorHasColons(t);
    NodePrefixHasColon(t);
  }

  /** A plain name that is no builtin is taken by its topic's hub unless the importer's repository declares it. */
  lemma PlainCaptured(lib: Lib, nodes: Table, repo: nat, t: string)
    requires PlainName(t) && HasHub(nodes, t) && Listing(lib, ByName, InRepo(Sources(nodes), repo), t) == {}
    ensures Captured(lib, Sources(nodes), repo, t, t) && Takes(lib, nodes, repo, t, t)
  {
    hide Listing, IsBuiltin, SplitQualified, PlainName;
    PlainMeans(t);
  }

  /** Local node `k` of the file imports `t`, and no node of its repository in the workspace is listed under `t`. */
  ghost predicate ImportsPlainly(lib: Lib, w: Files, path: string, k: nat, t: string) {
    && PlainName(t) && HandleOk(w, (path, k)) && (k, t) in w[path].dependencies
    && forall h: (string, nat) :: HandleOk(w, h) && w[h.0].nodes[h.1].repo == w[path].nodes[k].repo ==>
         Multiplicity(lib, ByName, w[h.0].nodes[h.1], t) == 0
  }

  /** In every table that represents such a workspace, a hub of that key takes the import. */
  lemma PlainImportTaken(lib: Lib, w: Files, nodes: Table, f: Facts, path: string, k: nat, t: string)
    returns (importer: Id)
    requires Represented(lib, w, Sources(nodes), f) && ImportsPlainly(lib, w, path, k, t) && HasHub(nodes, t)
    ensures FactTaken(lib, nodes, f.imports, importer, t, t)
  {
    hide FactsOf, Multiplicity, PlainName, Captured, Takes, Represented, HasHub;
    var src := Sources(nodes);
    importer := NodeAtPlace(lib, w, src, f, (path, k));
    RecordedAt(lib, w, (path, k), f, importer, t);
    var repo := src[importer].repo;
    forall x | x in src && src[x].repo == repo ensures Multiplicity(lib, ByName, src[x], t) == 0 {
      var h := PlaceOfNode(lib, w, src, f, x);
    }
    assert Listing(lib, ByName, InRepo(src, repo), t) == {};
    PlainCaptured(lib, nodes, repo, t);
  }

  /** What the one file records. */
  ghost function RecordedAlone(lib: Lib, fi: FileIndex): Facts {
    Added(lib, NO_FACTS, 0, fi)
  }

  /**
   * A file that imports `t` and names the topic `t`, derived twice: the second derivation changes the edges, because
   * the hub the first one created takes the import. `first` holds the edges of the first derivation, which started from
   * the file's nodes alone.
   */
  method SecondDerivationDiffers(lib: Lib, path: string, fi: FileIndex, k: nat, t: string)
    returns (g: ContractGraph, ghost first: seq<Edge>)
    requires LibOk(lib) && fi.Ok(path)
    requires ImportsPlainly(lib, map[path := fi], path, k, t) && Named(lib, map[path := fi], t)
    ensures fresh(g) && g.lib == lib && Derived(g, map[path := fi], g.nodes) && g.Recorded() == RecordedAlone(lib, fi)
    ensures DerivedFrom(lib, Block(map[], 0, fi.nodes), g.nodes, g.nextNodeId, RecordedAlone(lib, fi), first)
    ensures multiset(g.edges) != multiset(first)
  {
    hide Holds, FileIndex.Ok, ImportsPlainly, Named, KeepsLive, FactTaken, DerivedFrom, UpToDate, AnyCaptured,
         ImportersOk, LibOk, Block, Added;
    g := New(lib);
    ghost var w: Files := map[path := fi];
    ghost var none: Files := map[];
    assert none[path := fi] == w;
    FoldOne(g, path, fi, none);
    ghost var pre := g.nodes;
    first := DeriveTwice(g, w);
    HubsExactAfter(g, w, g.nodes);
    HubIffNamed(g, w, t);
    HoldsParts(g, w);
    ghost var importer := PlainImportTaken(lib, w, g.nodes, g.Recorded(), path, k, t);
    assert !HasHub(pre, t);
  }

  /**
   * One file imports `t`, another names the topic `t` and is then deleted. The hub left over takes the import: the
   * reload, which started from table `pre` and left `n1` and the edges `first`, prints other lines than a build of the
   * remaining file, and deriving once more changes the edges.
   */
  method StaleHubCaptures(lib: Lib, a: string, fa: FileIndex, k: nat, b: string, fb: FileIndex, t: string)
    returns (g: ContractGraph, h: ContractGraph, ghost pre: Table, ghost n1: Table, ghost b1: nat,
      ghost first: seq<Edge>)
    requires LibOk(lib) && a != b && b != BUS && fa.Ok(a) && fb.Ok(b)
    requires ImportsPlainly(lib, map[a := fa], a, k, t) && Named(lib, map[b := fb], t) && !Named(lib, map[a := fa], t)
    ensures g.lib == lib && h.lib == lib && HasHub(pre, t)
    ensures forall key :: HasHub(pre, key) <==> Named(lib, map[a := fa, b := fb], key)
    ensures DerivedFrom(lib, pre, n1, b1, g.Recorded(), first)
    ensures Holds(h, map[a := fa]) && UpToDate(lib, h.nodes, h.nextNodeId, h.Recorded(), h.edges)
    ensures CanonicalLines(n1, b1, g.Recorded(), first) != Reload.Lines(h)
    ensures Derived(g, map[a := fa], n1) && g.nodes == n1 && multiset(g.edges) != multiset(first)
  {
    hide Holds, FileIndex.Ok, ImportsPlainly, Named, KeepsLive, FactTaken, DerivedFrom, UpToDate, AnyCaptured,
         ImportersOk, LibOk, HubsExact, CanonicalLines, HasHub;
    var files := [(a, fa), (b, fb)];
    ghost var both, one: Files := map[a := fa, b := fb], map[a := fa];
    FoldTwo(a, fa, b, fb);
    g := Rebuild(lib, files);
    UpToDateHubs(g);
    NamedWithin(lib, a, fa, b, fb, t);
    forall key { HubIffNamed(g, both, key); }
    var batch := Batch([], {b});
    assert batch.Update(both) == one by { DeleteOne(batch, both, a, fa, b); }
    pre := ReloadBatch(g, batch, both);
    HubsExactAfter(g, one, pre);
    HubIffNamed(g, one, t);
    StillTaken(g, one, pre, a, k, t);
    n1, b1, first := g.nodes, g.nextNodeId, g.edges;
    FoldSingle(a, fa);
    h := Rebuild(lib, [(a, fa)]);
    CapturedDiffers(lib, pre, n1, b1, g.Recorded(), first, h.nodes, h.nextNodeId, h.Recorded(), h.edges);
    Derive(g, one);
    Idempotent(lib, pre, n1, b1, g.Recorded(), first, g.nodes, g.nextNodeId, g.edges);
  }

  lemma NamedWithin(lib: Lib, a: string, fa: FileIndex, b: string, fb: FileIndex, key: string)
    requires a != b && Named(lib, map[b := fb], key)
    ensures Named(lib, map[a := fa, b := fb], key)
  {
    var h: Place :| PublishesAt(lib, map[b := fb], h, key) || ListensAt(lib, map[b := fb], h, key);
    assert PublishesAt(lib, map[a := fa, b := fb], h, key) || ListensAt(lib, map[a := fa, b := fb], h, key);
  }

  lemma FoldTwo(a: string, fa: FileIndex, b: string, fb: FileIndex)
    ensures Fold(map[], [(a, fa), (b, fb)]) == map[a := fa][b := fb]
  {
    assert [(a, fa), (b, fb)] == [(a, fa)] + [(b, fb)];
    FoldLast(map[], [(a, fa)], (b, fb));
    FoldSingle(a, fa);
  }

  lemma FoldSingle(a: string, fa: FileIndex)
    ensures Fold(map[], [(a, fa)]) == map[a := fa]
  {
    assert [(a, fa)][..0] == [];
  }

  lemma DeleteOne(batch: Batch, both: Files, a: string, fa: FileIndex, b: string)
    requires batch == Batch([], {b}) && a != b && both.Keys == {a, b} && both[a] == fa
    ensures batch.Update(both) == map[a := fa]
  {
    assert batch.Paths() == {b};
    assert both - {b} == map[a := fa];
  }

  /** The hub the derivation started from takes the import, and is gone. */
  lemma StillTaken(g: ContractGraph, w: Files, pre: Table, path: string, k: nat, t: string)
    requires Derived(g, w, pre) && ImportsPlainly(g.lib, w, path, k, t) && HasHub(pre, t) && !HasHub(g.nodes, t)
    ensures AnyCaptured(g.lib, pre, g.reverseDeps) && TakenBeyond(g.lib, pre, g.reverseDeps, g.nodes)
  {
    hide Holds, UpToDate, AnyCaptured, ImportersOk, KeepsLive, HubsExact, HubsOk, FactsLive, NoEmptyFacts, DerivedEdge,
         ImportsPlainly, HasHub, FactTaken, Sources, Represented;
    HoldsParts(g, w);
    var importer := PlainImportTaken(g.lib, w, pre, g.Recorded(), path, k, t);
    CapturedIffTaken(g.lib, pre, g.reverseDeps);
    assert !HasHub(Sources(pre), t) by { NoSourceHub(pre, t); }
  }

  lemma NoSourceHub(nodes: Table, key: string)
    ensures !HasHub(Sources(nodes), key)
  {
  }

  /** A class that imports `orders` and publishes to the topic `orders`. */
  const PUBLISHER := Node("Publisher", ServiceClass, "publisher.ts", 1, 9, "shop", 0, None, None)
  const ORDERS := FileIndex([PUBLISHER], [(0, "orders")], [(0, "orders")], [], [], [])

  /** Derived twice, the one-file workspace of `ORDERS` shows other edges. */
  method OrdersDerivedTwice(lib: Lib) returns (g: ContractGraph, ghost first: seq<Edge>)
    requires LibOk(lib) && lib.topicKey("orders") == "orders"
    ensures fresh(g) && g.lib == lib && Derived(g, map["publisher.ts" := ORDERS], g.nodes)
    ensures DerivedFrom(lib, map[0 := PUBLISHER], g.nodes, g.nextNodeId, RecordedAlone(lib, ORDERS), first)
    ensures g.Recorded() == RecordedAlone(lib, ORDERS) && multiset(g.edges) != multiset(first)
  {
    hide LibOk, Derived, DerivedFrom, RecordedAlone;
    OrdersImported(lib);
    g, first := SecondDerivationDiffers(lib, "publisher.ts", ORDERS, 0, "orders");
  }

  lemma OrdersImported(lib: Lib)
    requires lib.topicKey("orders") == "orders"
    ensures ORDERS.Ok("publisher.ts") && Named(lib, map["publisher.ts" := ORDERS], "orders")
    ensures ImportsPlainly(lib, map["publisher.ts" := ORDERS], "publisher.ts", 0, "orders")
    ensures Block(map[], 0, ORDERS.nodes) == map[0 := PUBLISHER]
  {
    hide ImportsPlainly, Named, FileIndex.Ok, Block;
    OrdersPlain(lib);
    OrdersNamed(lib);
    OrdersOk();
    BlockOne(map[], 0, PUBLISHER, []);
  }

  lemma OrdersOk()
    ensures ORDERS.Ok("publisher.ts")
  {
    assert BUS[0] != PUBLISHER.package[0];
  }

  lemma OrdersNamed(lib: Lib)
    requires lib.topicKey("orders") == "orders"
    ensures Named(lib, map["publisher.ts" := ORDERS], "orders")
  {
    assert Topics(lib, ORDERS.producers)[0] == (0, "orders");
    assert PublishesAt(lib, map["publisher.ts" := ORDERS], ("publisher.ts", 0), "orders");
  }

  lemma OrdersPlain(lib: Lib)
    ensures ImportsPlainly(lib, map["publisher.ts" := ORDERS], "publisher.ts", 0, "orders")
  {
    var w: Files := map["publisher.ts" := ORDERS];
    assert ORDERS.dependencies[0] == (0, "orders");
    assert PUBLISHER.name[0] != "orders"[0];
    forall h: (string, nat) | HandleOk(w, h) ensures w[h.0].nodes[h.1] == PUBLISHER {}
  }

  // ------------------------------------------------------------------ a pair declared twice

  function OneNode(n: Node, imports: seq<string>): (fi: FileIndex)
    ensures |fi.dependencies| == |imports| && forall i :: 0 <= i < |imports| ==> fi.dependencies[i] == (0, imports[i])
  {
    FileIndex([n], seq(|imports|, i requires 0 <= i < |imports| => (0, imports[i])), [], [], [], [])
  }

  /** Three one-node files: an importer of `t` and two declarations of the pair it names. */
  ghost predicate Homonymous(t: string, a: Node, x: Node, y: Node) {
    && !IsPath(t) && SplitQualified(t).Some?
    && (forall n :: n in {a, x, y} ==> n.package != BUS && n.repo != NO_REPO)
    && a.file != x.file && a.file != y.file && x.file != y.file
    && (forall n :: n in {x, y} ==> n.package == SplitQualified(t).value.0 && n.name == SplitQualified(t).value.1)
    && a.package != SplitQualified(t).value.0
  }

  /** The graph prints an import edge from the one node to the other. */
  ghost predicate PrintsImport(nodes: Table, edges: seq<Edge>, t: string, from: Node, to: Node) {
    exists c :: EdgeLine(EdgeKind.Imports, Some(from), Some(to), t, c) in multiset(EdgeLines(nodes, edges))
  }

  function ThreeFiles(t: string, a: Node, x: Node, y: Node): seq<(string, FileIndex)> {
    [(a.file, OneNode(a, [t])), (x.file, OneNode(x, [])), (y.file, OneNode(y, []))]
  }

  lemma StackNode(lib: Lib, before: (Table, nat, Facts), changed: seq<(string, FileIndex)>, path: string, n: Node,
        imports: seq<string>)
    requires |imports| <= 1 && before == Stacked(lib, (map[], 0, NO_FACTS), changed)
    ensures Stacked(lib, (map[], 0, NO_FACTS), changed + [(path, OneNode(n, imports))])
         == (before.0[before.1 := n], before.1 + 1,
             if imports == [] then before.2 else before.2.(imports := Push(before.2.imports, imports[0], before.1)))
  {
    StackOne(lib, (map[], 0, NO_FACTS), changed, (path, OneNode(n, imports)));
    hide Block, Added, OneNode;
    BlockOne(before.0, before.1, n, imports);
    AddedOne(lib, before.2, before.1, n, imports);
  }

  lemma BlockOne(nodes: Table, base: Id, n: Node, imports: seq<string>)
    ensures |OneNode(n, imports).nodes| == 1 && Block(nodes, base, OneNode(n, imports).nodes) == nodes[base := n]
  {
    assert [n][..0] == [];
  }

  lemma AddedOne(lib: Lib, f: Facts, base: Id, n: Node, imports: seq<string>)
    requires |imports| <= 1
    ensures Added(lib, f, base, OneNode(n, imports)) == if imports == [] then f
      else f.(imports := Push(f.imports, imports[0], base))
  {
    hide Push;
    var fi := OneNode(n, imports);
    assert f.heuristic + (set i | 0 <= i < |fi.heuristic| :: base + fi.heuristic[i]) == f.heuristic;
    AppendNothing(f.calls);
    if imports == [] {
      assert fi.dependencies == [];
    } else {
      assert fi.dependencies == [(0, imports[0])];
      assert fi.dependencies[..0] == [];
      assert PushAll(f.imports, base, fi.dependencies) == Push(f.imports, imports[0], base);
    }
  }

  lemma StackThree(lib: Lib, t: string, a: Node, x: Node, y: Node)
    ensures Stacked(lib, (map[], 0, NO_FACTS), ThreeFiles(t, a, x, y))
      == (map[0 := a, 1 := x, 2 := y], 3, NO_FACTS.(imports := map[t := [0]]))
  {
    hide Stacked, OneNode;
    var fa, fx, fy := (a.file, OneNode(a, [t])), (x.file, OneNode(x, [])), (y.file, OneNode(y, []));
    var none: seq<(string, FileIndex)> := [];
    StackNone(lib, (map[], 0, NO_FACTS));
    StackNode(lib, (map[], 0, NO_FACTS), none, a.file, a, [t]);
    assert none + [fa] == [fa] && [fa] + [fx] == [fa, fx] && [fa, fx] + [fy] == [fa, fx, fy];
    AppendFirst(t);
    StackNode(lib, (map[0 := a], 1, NO_FACTS.(imports := map[t := [0]])), [fa], x.file, x, []);
    assert map[0 := a][1 := x] == map[0 := a, 1 := x];
    StackNode(lib, (map[0 := a, 1 := x], 2, NO_FACTS.(imports := map[t := [0]])), [fa, fx], y.file, y, []);
    assert map[0 := a, 1 := x][2 := y] == map[0 := a, 1 := x, 2 := y];
  }

  lemma AppendFirst(t: string)
    ensures Push(map[], t, 0) == map[t := [0]]
  {
    var none: seq<Id> := [];
    assert none + [0] == [0];
    assert At(map[], t) == none;
  }

  /** In this table the import resolves to the first declaration only. */
  lemma FirstOfThree(lib: Lib, t: string, a: Node, x: Node, y: Node, to: Id)
    requires Homonymous(t, a, x, y)
    ensures Hits(lib, map[0 := a, 1 := x, 2 := y], 0, t, to) <==> to == 1
  {
    hide SplitQualified, Meaning;
    var nodes: Table := map[0 := a, 1 := x, 2 := y];
    var (package, name) := SplitQualified(t).value;
    var exact := Listing(lib, ByName, InPackage(nodes, package), name);
    assert 1 in exact && 0 !in exact;
    FirstHomonym(lib, nodes, a.repo, ImporterDir(lib, a, t), t, package, name, 1);
  }

  lemma PrintsFirst(lib: Lib, nodes: Table, bound: nat, f: Facts, edges: seq<Edge>, t: string, a: Node, x: Node,
        y: Node)
    requires Homonymous(t, a, x, y) && f.imports == map[t := [0]]
    requires DerivedFrom(lib, map[0 := a, 1 := x, 2 := y], nodes, bound, f, edges)
    ensures PrintsImport(nodes, edges, t, a, x) && !PrintsImport(nodes, edges, t, a, y)
  {
    hide Hits, AnyHubEdge, ImplementsEdge, CallEdge, HubsOk, HubsExact, FactsLive, SplitQualified, EdgeLines, Targets;
    var pre: Table := map[0 := a, 1 := x, 2 := y];
    FirstOfThree(lib, t, a, x, y, 1);
    assert 0 in At(f.imports, t);
    var e := ReachedEdge(lib, pre, f.imports, 0, t, 1);
    assert DerivedEdge(lib, pre, nodes, f, e);
    assert e in edges && e.metadata == t;
    ThreeKept(nodes, a, x, y, t);
    var i :| 0 <= i < |edges| && edges[i] == e;
    assert EdgeLines(nodes, edges)[i] == EdgeLine(EdgeKind.Imports, Some(a), Some(x), t, e.confidence);
    forall c ensures EdgeLine(EdgeKind.Imports, Some(a), Some(y), t, c) !in EdgeLines(nodes, edges) {
      forall j | 0 <= j < |edges|
        ensures EdgeLines(nodes, edges)[j] != EdgeLine(EdgeKind.Imports, Some(a), Some(y), t, c) {
        OneImport(lib, nodes, f, edges, t, a, x, y, j);
      }
    }
  }

  lemma ThreeKept(nodes: Table, a: Node, x: Node, y: Node, t: string)
    requires Homonymous(t, a, x, y) && Sources(map[0 := a, 1 := x, 2 := y]) == Sources(nodes)
    ensures 0 in nodes && nodes[0] == a && 1 in nodes && nodes[1] == x
  {
    var pre: Table := map[0 := a, 1 := x, 2 := y];
    assert 0 in Sources(pre) && 1 in Sources(pre);
  }

  lemma OneImport(lib: Lib, nodes: Table, f: Facts, edges: seq<Edge>, t: string, a: Node, x: Node, y: Node, j: nat)
    requires Homonymous(t, a, x, y) && f.imports == map[t := [0]] && j < |edges| && 1 in nodes && nodes[1] == x
    requires forall e :: e in edges <==> DerivedEdge(lib, map[0 := a, 1 := x, 2 := y], nodes, f, e)
    ensures edges[j].kind == EdgeKind.Imports ==> LineOf(nodes, edges[j]).to == Some(x) != Some(y)
  {
    hide Hits, AnyHubEdge, ImplementsEdge, CallEdge, SplitQualified, Targets;
    var e := edges[j];
    if e.kind == EdgeKind.Imports {
      assert e in edges;
      OtherKinds(lib, nodes, f, e);
      assert ImportEdge(lib, map[0 := a, 1 := x, 2 := y], f.imports, e);
      FirstOfThree(lib, t, a, x, y, e.to);
    }
  }

  /** Built in this order, the importer's edge leads to the first declaration. */
  method BuildThree(lib: Lib, t: string, a: Node, x: Node, y: Node) returns (g: ContractGraph)
    requires LibOk(lib) && Homonymous(t, a, x, y)
    ensures fresh(g) && g.lib == lib && Holds(g, Fold(map[], ThreeFiles(t, a, x, y)))
    ensures UpToDate(lib, g.nodes, g.nextNodeId, g.Recorded(), g.edges)
    ensures PrintsImport(g.nodes, g.edges, t, a, x) && !PrintsImport(g.nodes, g.edges, t, a, y)
  {
    hide Holds, LibOk, SplitQualified, PrintsImport, Stacked, OneNode, UpToDate, AnyCaptured, KeepsLive, TakenBeyond,
         Fold;
    var files := ThreeFiles(t, a, x, y);
    g := New(lib);
    ThreeOk(t, a, x, y);
    FoldAll(g, files, map[]);
    StackThree(lib, t, a, x, y);
    ghost var w := Fold(map[], files);
    Derive(g, w);
    DerivedParts(g, w, map[0 := a, 1 := x, 2 := y]);
    ThreeHubless(lib, t, a, x, y, g.reverseDeps);
    PrintsFirst(lib, g.nodes, g.nextNodeId, g.Recorded(), g.edges, t, a, x, y);
  }

  lemma ThreeHubless(lib: Lib, t: string, a: Node, x: Node, y: Node, imports: Buckets)
    requires Homonymous(t, a, x, y)
    ensures !AnyCaptured(lib, map[0 := a, 1 := x, 2 := y], imports)
  {
    hide SplitQualified, AnyCaptured;
    NoHubsNoCapture(lib, map[0 := a, 1 := x, 2 := y], imports);
  }

  lemma ThreeOk(t: string, a: Node, x: Node, y: Node)
    requires Homonymous(t, a, x, y)
    ensures forall i, j :: 0 <= i < j < 3 ==> ThreeFiles(t, a, x, y)[i].0 != ThreeFiles(t, a, x, y)[j].0
    ensures forall i :: 0 <= i < 3 ==> ThreeFiles(t, a, x, y)[i].1.Ok(ThreeFiles(t, a, x, y)[i].0)
  {
    hide SplitQualified;
  }

  /** Two orders of the same three files: both graphs hold the one workspace, and they print different lines. */
  method TwoOrders(lib: Lib, t: string, a: Node, x: Node, y: Node) returns (g: ContractGraph, h: ContractGraph)
    requires LibOk(lib) && Homonymous(t, a, x, y)
    ensures g.lib == lib && Holds(g, Fold(map[], ThreeFiles(t, a, x, y)))
    ensures h.lib == lib && Holds(h, Fold(map[], ThreeFiles(t, a, x, y)))
    ensures UpToDate(lib, g.nodes, g.nextNodeId, g.Recorded(), g.edges)
    ensures UpToDate(lib, h.nodes, h.nextNodeId, h.Recorded(), h.edges)
    ensures Reload.Lines(g) != Reload.Lines(h)
  {
    hide Holds, LibOk, SplitQualified, OneNode, UpToDate;
    g := BuildThree(lib, t, a, x, y);
    h := BuildThree(lib, t, a, y, x);
    FoldThree(t, a, x, y);
  }

  lemma FoldThree(t: string, a: Node, x: Node, y: Node)
    requires Homonymous(t, a, x, y)
    ensures Fold(map[], ThreeFiles(t, a, x, y)) == Fold(map[], ThreeFiles(t, a, y, x))
  {
    hide OneNode, SplitQualified;
    var fa, fx, fy := (a.file, OneNode(a, [t])), (x.file, OneNode(x, [])), (y.file, OneNode(y, []));
    assert [fa, fx, fy][..2] == [fa, fx] && [fa, fy, fx][..2] == [fa, fy];
    FoldTwo(fa.0, fa.1, fx.0, fx.1);
    FoldTwo(fa.0, fa.1, fy.0, fy.1);
  }
}
