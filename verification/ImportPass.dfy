/** Stage 1 of `reconcile_edges`: every `Imports` edge, derived afresh from the recorded facts. */
module ImportPass {
  import opened Text
  import opened Seqs
  import opened GraphModel
  import opened Imports
  import opened ImportMeaning
  import opened EdgeLog

  type Fact = (Id, string)

  /** The importer's directory, for a relative import from a script only. */
  function ImporterDir(lib: Lib, importer: Node, t: string): Option<string> {
    if "." <= t && lib.isScript(importer.file) then lib.parent(importer.file) else None
  }

  /** What `importer`'s import of `t` resolves to. */
  ghost function Targets(lib: Lib, nodes: Table, importer: Id, t: string): Outcome
    requires importer in nodes
  {
    Meaning(lib, nodes, nodes[importer].repo, ImporterDir(lib, nodes[importer], t), t)
  }

  ghost predicate Hits(lib: Lib, nodes: Table, importer: Id, t: string, to: Id) {
    importer in nodes && to in Targets(lib, nodes, importer, t).ids
  }

  /** The edge an import fact yields: of several targets reaching the same node, the least one labels it. */
  ghost predicate ImportEdge(lib: Lib, nodes: Table, imports: Buckets, e: Edge) {
    && e.kind == EdgeKind.Imports
    && e.from in At(imports, e.metadata)
    && Hits(lib, nodes, e.from, e.metadata, e.to)
    && e.confidence == Targets(lib, nodes, e.from, e.metadata).confidence
    && forall t :: e.from in At(imports, t) && Less(t, e.metadata) ==> !Hits(lib, nodes, e.from, t, e.to)
  }

  // ------------------------------------------------------------------ the sorted facts

  predicate Before(a: Fact, b: Fact) {
    a.0 < b.0 || (a.0 == b.0 && Less(a.1, b.1))
  }

  predicate Sorted(facts: seq<Fact>) {
    forall i, j :: 0 <= i < j < |facts| ==> !Before(facts[j], facts[i])
  }

  lemma BeforeOrder(a: Fact, b: Fact, c: Fact)
    ensures Before(a, b) || Before(b, a) || a == b
    ensures !(Before(a, b) && Before(b, a))
    ensures !Before(b, a) && !Before(c, b) ==> !Before(c, a)
  {
    LessTotal(a.1, b.1);
    LessTotal(b.1, c.1);
    LessTotal(a.1, c.1);
    if Less(a.1, b.1) && Less(b.1, c.1) { LessTransitive(a.1, b.1, c.1); }
    if Less(c.1, a.1) && Less(a.1, b.1) { LessTransitive(c.1, a.1, b.1); }
  }

  method Insert(facts: seq<Fact>, f: Fact) returns (r: seq<Fact>)
    requires Sorted(facts)
    ensures Sorted(r)
    ensures forall x :: Tally(r, x) == Tally(facts, x) + if x == f then 1 else 0
  {
    var i := |facts|;
    while i > 0 && Before(f, facts[i - 1])
      invariant 0 <= i <= |facts|
      invariant forall j :: i <= j < |facts| ==> Before(f, facts[j])
    {
      i := i - 1;
    }
    r := facts[..i] + [f] + facts[i..];
    forall a, b | 0 <= a < b < |r| ensures !Before(r[b], r[a]) {
      if i > 0 && a <= i - 1 && b == i {
        BeforeOrder(facts[a], facts[i - 1], f);
        BeforeOrder(f, f, f);
      } else if a == i {
        BeforeOrder(f, r[b], f);
      }
    }
    forall x ensures Tally(r, x) == Tally(facts, x) + if x == f then 1 else 0 {
      TallyInsert(facts, i, f, x);
    }
  }

  /** Every recorded `(importer, target)` pair as often as it is recorded, in importer and then target order. */
  method SortedFacts(imports: Buckets) returns (facts: seq<Fact>)
    ensures Sorted(facts)
    ensures forall f: Fact :: Tally(facts, f) == Tally(At(imports, f.1), f.0)
    ensures forall f: Fact :: f in facts <==> f.0 in At(imports, f.1)
  {
    hide Tally, Sorted;
    facts := [];
    assert Sorted(facts) by { NoFactsSorted(); }
    forall f: Fact ensures Tally(facts, f) == 0 && (f.1 !in imports ==> Tally(At(imports, f.1), f.0) == 0) {
      NoTally(f);
      NoTally(f.0);
    }
    var todo := imports.Keys;
    while todo != {}
      invariant todo <= imports.Keys
      invariant Sorted(facts)
      invariant forall f: Fact :: Tally(facts, f) == if f.1 in todo then 0 else Tally(At(imports, f.1), f.0)
    {
      var t :| t in todo;
      var ids := imports[t];
      forall id: Id { NoTally(id); }
      assert ids[..0] == [];
      for i := 0 to |ids|
        invariant Sorted(facts)
        invariant forall f: Fact ::
          Tally(facts, f) == if f.1 == t then Tally(ids[..i], f.0) else if f.1 in todo then 0
            else Tally(At(imports, f.1), f.0)
      {
        facts := Insert(facts, (ids[i], t));
        forall id: Id { TallyPrefix(ids, i, id); }
      }
      assert ids[..|ids|] == ids;
      todo := todo - {t};
    }
    forall f: Fact ensures f in facts <==> f.0 in At(imports, f.1) {
      TallyMember(facts, f);
      TallyMember(At(imports, f.1), f.0);
    }
  }

  lemma NoFactsSorted()
    ensures Sorted([])
  {
  }

  // ------------------------------------------------------------------ the loop

  /** Fact `j` is the first of its importer to reach `to`. */
  ghost predicate FirstReach(lib: Lib, nodes: Table, facts: seq<Fact>, j: nat, to: Id)
    requires j < |facts|
  {
    forall i :: 0 <= i < j && facts[i].0 == facts[j].0 ==> !Hits(lib, nodes, facts[i].0, facts[i].1, to)
  }

  ghost predicate Yields(lib: Lib, nodes: Table, facts: seq<Fact>, j: nat, e: Edge)
    requires j < |facts|
  {
    && e.kind == EdgeKind.Imports && facts[j] == (e.from, e.metadata)
    && Hits(lib, nodes, e.from, e.metadata, e.to)
    && e.confidence == Targets(lib, nodes, e.from, e.metadata).confidence
    && FirstReach(lib, nodes, facts, j, e.to)
  }

  /** The result map remembers, per target, repository and directory, what resolution returns. */
  type Resolved = map<(string, nat, Option<string>), Resolution>

  ghost predicate ResolvedOk(g: Lookup, resolved: Resolved) {
    forall key :: key in resolved ==> resolved[key] == Resolve(g, key.1, key.2, key.0)
  }

  method ResolveFact(g: Lookup, importer: Id, t: string, resolved: Resolved, memo: Memo)
    returns (r: Resolution, resolved': Resolved, memo': Memo)
    requires importer in g.nodes && memo.Ok(g) && ResolvedOk(g, resolved)
    ensures memo'.Ok(g) && ResolvedOk(g, resolved')
    ensures r == Resolve(g, g.nodes[importer].repo, ImporterDir(g.lib, g.nodes[importer], t), t)
  {
    var node := g.nodes[importer];
    var key := (t, node.repo, ImporterDir(g.lib, node, t));
    if key in resolved {
      return resolved[key], resolved, memo;
    }
    r, memo' := ResolveMemoised(g, key.1, key.2, t, memo);
    resolved' := resolved[key := r];
  }

  /** A resolved fact, read off the node table. */
  lemma FactMeans(g: Lookup, bound: nat, importer: Id, t: string)
    requires g.Ok(bound) && importer in g.nodes
    ensures
      var found := Resolve(g, g.nodes[importer].repo, ImporterDir(g.lib, g.nodes[importer], t), t);
      forall to :: to in found.ids ==> found.confidence == Targets(g.lib, g.nodes, importer, t).confidence
    ensures
      var found := Resolve(g, g.nodes[importer].repo, ImporterDir(g.lib, g.nodes[importer], t), t);
      forall to :: to in found.ids <==> Hits(g.lib, g.nodes, importer, t, to)
  {
    hide Meaning, Resolve;
    ResolveMeans(g, bound, g.nodes[importer].repo, ImporterDir(g.lib, g.nodes[importer], t), t);
  }

  /** What the log holds once the first `i` facts are emitted. */
  ghost predicate EmittedUpTo(lib: Lib, nodes: Table, facts: seq<Fact>, i: nat, log: Log, r: Log)
    requires i <= |facts|
  {
    && (forall k :: k in r.seen <==>
          k in log.seen
          || (k.2 == EdgeKind.Imports
             && exists j :: 0 <= j < i && facts[j].0 == k.0 && Hits(lib, nodes, k.0, facts[j].1, k.1)))
    && (forall e :: e in r.edges <==> e in log.edges || exists j :: 0 <= j < i && Yields(lib, nodes, facts, j, e))
  }

  lemma EmittedOneMore(lib: Lib, nodes: Table, facts: seq<Fact>, i: nat, log: Log, r: Log, r': Log, targets: seq<Id>,
        c: Confidence)
    requires i < |facts| && log.Lacks(EdgeKind.Imports)
    requires EmittedUpTo(lib, nodes, facts, i, log, r)
    requires facts[i].0 in nodes
    requires forall to :: to in targets <==> Hits(lib, nodes, facts[i].0, facts[i].1, to)
    requires forall to :: to in targets ==> c == Targets(lib, nodes, facts[i].0, facts[i].1).confidence
    requires forall k ::
      k in r'.seen <==> k in r.seen || (k.0 == facts[i].0 && k.1 in targets && k.2 == EdgeKind.Imports)
    requires forall e ::
      e in r'.edges
      <==> e in r.edges
           || (e == Edge(facts[i].0, e.to, EdgeKind.Imports, facts[i].1, c) && e.to in targets && KeyOf(e) !in r.seen)
    ensures EmittedUpTo(lib, nodes, facts, i + 1, log, r')
  {
    hide Hits, Targets;
    forall e
      ensures e in r'.edges <==> e in log.edges || exists j :: 0 <= j < i + 1 && Yields(lib, nodes, facts, j, e) {
      if e in r'.edges && e !in r.edges {
        assert Yields(lib, nodes, facts, i, e);
      }
      if Yields(lib, nodes, facts, i, e) {
        assert KeyOf(e) !in r.seen;
      }
    }
  }

  method ReconcileImports(g: Lookup, ghost bound: nat, imports: Buckets, log: Log) returns (r: Log)
    requires g.Ok(bound) && log.Ok() && log.Lacks(EdgeKind.Imports)
    ensures r.Ok() && log.edges <= r.edges
    ensures forall e :: e in r.edges <==> e in log.edges || ImportEdge(g.lib, g.nodes, imports, e)
    ensures forall k :: k in r.seen && k !in log.seen ==> k.2 == EdgeKind.Imports
  {
    hide Resolve, Hits, Targets, Yields, EmittedUpTo;
    var facts := SortedFacts(imports);
    var resolved: Resolved := map[];
    var memo := Memo(map[], map[], map[]);
    r := log;
    NothingEmitted(g.lib, g.nodes, facts, log);
    for i := 0 to |facts|
      invariant memo.Ok(g) && ResolvedOk(g, resolved)
      invariant r.Ok() && log.edges <= r.edges
      invariant EmittedUpTo(g.lib, g.nodes, facts, i, log, r)
    {
      var (importer, t) := facts[i];
      if importer in g.nodes {
        var found: Resolution;
        found, resolved, memo := ResolveFact(g, importer, t, resolved, memo);
        FactMeans(g, bound, importer, t);
        ghost var before := r;
        r := EmitTargets(r, importer, found.ids, EdgeKind.Imports, t, found.confidence);
        EmittedOneMore(g.lib, g.nodes, facts, i, log, before, r, found.ids, found.confidence);
      } else {
        DeadImporter(g.lib, g.nodes, facts, i, log, r);
      }
    }
    AllEmitted(g.lib, g.nodes, imports, facts, log, r);
  }

  lemma NothingEmitted(lib: Lib, nodes: Table, facts: seq<Fact>, log: Log)
    ensures EmittedUpTo(lib, nodes, facts, 0, log, log)
  {
  }

  lemma DeadImporter(lib: Lib, nodes: Table, facts: seq<Fact>, i: nat, log: Log, r: Log)
    requires i < |facts| && facts[i].0 !in nodes
    requires EmittedUpTo(lib, nodes, facts, i, log, r)
    ensures EmittedUpTo(lib, nodes, facts, i + 1, log, r)
  {
    hide Targets;
    forall e ensures !Yields(lib, nodes, facts, i, e) {}
    forall to ensures !Hits(lib, nodes, facts[i].0, facts[i].1, to) {}
  }

  lemma AllEmitted(lib: Lib, nodes: Table, imports: Buckets, facts: seq<Fact>, log: Log, r: Log)
    requires Sorted(facts)
    requires forall f :: f in facts <==> f.0 in At(imports, f.1)
    requires EmittedUpTo(lib, nodes, facts, |facts|, log, r)
    ensures forall e :: e in r.edges <==> e in log.edges || ImportEdge(lib, nodes, imports, e)
    ensures forall k :: k in r.seen && k !in log.seen ==> k.2 == EdgeKind.Imports
  {
    hide Yields, ImportEdge;
    forall e ensures e in r.edges <==> e in log.edges || ImportEdge(lib, nodes, imports, e) {
      YieldsImportEdge(lib, nodes, imports, facts, e);
    }
  }

  lemma YieldsImportEdge(lib: Lib, nodes: Table, imports: Buckets, facts: seq<Fact>, e: Edge)
    requires Sorted(facts)
    requires forall f :: f in facts <==> f.0 in At(imports, f.1)
    ensures (exists j :: 0 <= j < |facts| && Yields(lib, nodes, facts, j, e)) <==> ImportEdge(lib, nodes, imports, e)
  {
    hide Hits, Targets;
    if exists j :: 0 <= j < |facts| && Yields(lib, nodes, facts, j, e) {
      var j :| 0 <= j < |facts| && Yields(lib, nodes, facts, j, e);
      assert facts[j] in facts;
      forall t | e.from in At(imports, t) && Less(t, e.metadata) ensures !Hits(lib, nodes, e.from, t, e.to) {
        assert (e.from, t) in facts;
        var i :| 0 <= i < |facts| && facts[i] == (e.from, t);
        assert Before(facts[i], facts[j]);
        BeforeOrder(facts[i], facts[j], facts[i]);
        assert i < j;
      }
    }
    if ImportEdge(lib, nodes, imports, e) {
      assert (e.from, e.metadata) in facts;
      var k :| 0 <= k < |facts| && facts[k] == (e.from, e.metadata);
      var j := FirstIndex(facts, (e.from, e.metadata), k);
      forall i | 0 <= i < j && facts[i].0 == facts[j].0 ensures !Hits(lib, nodes, facts[i].0, facts[i].1, e.to) {
        assert facts[i] in facts;
        BeforeOrder(facts[i], facts[j], facts[i]);
        assert Less(facts[i].1, e.metadata);
      }
      assert Yields(lib, nodes, facts, j, e);
    }
  }

  lemma FirstIndex(facts: seq<Fact>, f: Fact, k: nat) returns (j: nat)
    requires k < |facts| && facts[k] == f
    ensures j <= k && facts[j] == f && forall i :: 0 <= i < j ==> facts[i] != f
  {
    j := 0;
    while facts[j] != f
      invariant 0 <= j <= k
      decreases k - j
      invariant forall i :: 0 <= i < j ==> facts[i] != f
    {
      j := j + 1;
    }
  }
}
