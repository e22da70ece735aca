/** Nothing derived depends on which ids the nodes were given. */
module Renaming {
  import opened Text
  import opened Seqs
  import opened GraphModel
  import opened Imports
  import opened ImportMeaning
  import opened ImportPass
  import opened Subjects
  import opened TopicPass
  import opened Handlers
  import opened Records
  import opened RpcMeaning
  import opened Graph
  import opened Reconciled

  /** A one-to-one renaming of ids. */
  ghost predicate Injective(phi: map<Id, Id>) {
    forall i, j :: i in phi && j in phi && phi[i] == phi[j] ==> i == j
  }

  /** `phi` carries one table onto the other, node for node. */
  ghost predicate Iso(phi: map<Id, Id>, n1: Table, n2: Table) {
    && Injective(phi)
    && n1.Keys <= phi.Keys && n2.Keys <= phi.Values
    && (forall id :: id in phi ==> (id in n1 <==> phi[id] in n2))
    && (forall id :: id in n1 ==> n1[id] == n2[phi[id]])
  }

  /** `phi` carries one set of ids onto the other. */
  ghost predicate Corr(phi: map<Id, Id>, a: set<Id>, b: set<Id>) {
    && a <= phi.Keys && b <= phi.Values
    && forall id :: id in phi ==> (id in a <==> phi[id] in b)
  }

  ghost predicate SameOutcome(phi: map<Id, Id>, o1: Outcome, o2: Outcome) {
    Corr(phi, o1.ids, o2.ids) && (o1.ids != {} ==> o1.confidence == o2.confidence)
  }

  lemma CorrEmpty(phi: map<Id, Id>, a: set<Id>, b: set<Id>)
    requires Corr(phi, a, b)
    ensures a == {} <==> b == {}
  {
    if b != {} {
      var y :| y in b;
      assert y in phi.Values;
      var x :| x in phi && phi[x] == y;
      assert x in a;
    }
    if a != {} {
      var x :| x in a;
      assert phi[x] in b;
    }
  }

  lemma {:induction false} CorrSize(phi: map<Id, Id>, a: set<Id>, b: set<Id>)
    requires Injective(phi) && Corr(phi, a, b)
    ensures |a| == |b|
    decreases |a|
  {
    CorrEmpty(phi, a, b);
    if a != {} {
      var x :| x in a;
      assert Corr(phi, a - {x}, b - {phi[x]});
      CorrSize(phi, a - {x}, b - {phi[x]});
    }
  }

  lemma CorrSingle(phi: map<Id, Id>, a: set<Id>, b: set<Id>, x: Id)
    requires Injective(phi) && Corr(phi, a, b) && a == {x}
    ensures b == {phi[x]}
  {
    forall y | y in b ensures y == phi[x] {
      assert y in phi.Values;
      var z :| z in phi && phi[z] == y;
      assert z in a;
    }
    assert phi[x] in b;
  }

  // ------------------------------------------------------------------ imports

  lemma ListingIso(phi: map<Id, Id>, lib: Lib, a: Attribute, n1: Table, n2: Table, key: string)
    requires Iso(phi, n1, n2)
    ensures Corr(phi, Listing(lib, a, n1, key), Listing(lib, a, n2, key))
  {
    hide Multiplicity;
  }

  lemma LoneIso(phi: map<Id, Id>, lib: Lib, a: Attribute, n1: Table, n2: Table, key: string)
    requires Iso(phi, n1, n2)
    ensures Lone(lib, a, n1, key) <==> Lone(lib, a, n2, key)
  {
    hide Multiplicity, Listing;
    var l1, l2 := Listing(lib, a, n1, key), Listing(lib, a, n2, key);
    ListingIso(phi, lib, a, n1, n2, key);
    if Lone(lib, a, n1, key) {
      var id :| id in n1 && l1 == {id} && Multiplicity(lib, a, n1[id], key) == 1;
      CorrSingle(phi, l1, l2, id);
    }
    if Lone(lib, a, n2, key) {
      var y :| y in n2 && l2 == {y} && Multiplicity(lib, a, n2[y], key) == 1;
      var x := CorrSingleBack(phi, l1, l2, y);
      assert x in n1 && n1[x] == n2[y];
    }
  }

  lemma CorrSingleBack(phi: map<Id, Id>, a: set<Id>, b: set<Id>, y: Id) returns (x: Id)
    requires Injective(phi) && Corr(phi, a, b) && b == {y}
    ensures x in phi && phi[x] == y && a == {x}
  {
    assert y in phi.Values;
    x :| x in phi && phi[x] == y;
    assert x in a;
    forall z | z in a ensures z == x {
      assert phi[z] in b;
    }
  }

  lemma InRepoIso(phi: map<Id, Id>, n1: Table, n2: Table, repo: nat)
    requires Iso(phi, n1, n2)
    ensures Iso(phi, InRepo(n1, repo), InRepo(n2, repo))
  {
  }

  lemma InPackageIso(phi: map<Id, Id>, n1: Table, n2: Table, package: string)
    requires Iso(phi, n1, n2)
    ensures Iso(phi, InPackage(n1, package), InPackage(n2, package))
  {
  }

  lemma InTargetIso(phi: map<Id, Id>, lib: Lib, n1: Table, n2: Table, dir: Option<string>, t: string)
    requires Iso(phi, n1, n2)
    ensures Iso(phi, InTarget(lib, n1, dir, t), InTarget(lib, n2, dir, t))
  {
    hide NamedBy;
  }

  lemma ChooseIso(phi: map<Id, Id>, lib: Lib, a: Attribute, n1: Table, n2: Table, key: string, repo: nat, c: Confidence)
    requires Iso(phi, n1, n2)
    ensures SameOutcome(phi, Choose(lib, a, n1, key, repo, c), Choose(lib, a, n2, key, repo, c))
  {
    hide Lone, Listing, InRepo, Corr, Iso;
    InRepoIso(phi, n1, n2, repo);
    var own1, own2 := InRepo(n1, repo), InRepo(n2, repo);
    ListingIso(phi, lib, a, n1, n2, key);
    LoneIso(phi, lib, a, n1, n2, key);
    ListingIso(phi, lib, a, own1, own2, key);
    LoneIso(phi, lib, a, own1, own2, key);
    CorrEmpty(phi, Listing(lib, a, own1, key), Listing(lib, a, own2, key));
  }

  lemma OwnIso(phi: map<Id, Id>, lib: Lib, n1: Table, n2: Table, key: string)
    requires Iso(phi, n1, n2)
    ensures SameOutcome(phi, Own(lib, n1, key), Own(lib, n2, key))
  {
    hide Lone, Listing, Corr, Iso;
    ListingIso(phi, lib, ByName, n1, n2, key);
    LoneIso(phi, lib, ByName, n1, n2, key);
  }

  /** The package declares the name at most once, so "the first" does not depend on ids. */
  ghost predicate DeclaredOnce(lib: Lib, nodes: Table, package: string, name: string) {
    var exact := Listing(lib, ByName, InPackage(nodes, package), name);
    forall i, j :: i in exact && j in exact ==> i == j
  }

  lemma QualifiedIso(phi: map<Id, Id>, lib: Lib, n1: Table, n2: Table, repo: nat, package: string, name: string)
    requires Iso(phi, n1, n2) && DeclaredOnce(lib, n1, package, name)
    ensures SameOutcome(phi, Qualified(lib, n1, repo, package, name), Qualified(lib, n2, repo, package, name))
  {
    hide Listing, Choose;
    InPackageIso(phi, n1, n2, package);
    var e1, e2 := Listing(lib, ByName, InPackage(n1, package), name),
      Listing(lib, ByName, InPackage(n2, package), name);
    ListingIso(phi, lib, ByName, InPackage(n1, package), InPackage(n2, package), name);
    CorrEmpty(phi, e1, e2);
    if e1 != {} {
      var x :| x in e1;
      assert e1 == {x};
      CorrSingle(phi, e1, e2, x);
      assert (set id | id in e1 && IsLeast(id, e1)) == e1;
      assert (set id | id in e2 && IsLeast(id, e2)) == e2;
    } else {
      var fqcn := package + "/" + name;
      ListingIso(phi, lib, ByFqcn, n1, n2, fqcn);
      CorrEmpty(phi, Listing(lib, ByFqcn, n1, fqcn), Listing(lib, ByFqcn, n2, fqcn));
      ChooseIso(phi, lib, ByFqcn, n1, n2, fqcn, repo, Exact);
    }
  }

  lemma BareIso(phi: map<Id, Id>, lib: Lib, n1: Table, n2: Table, repo: nat, dir: Option<string>, t: string)
    requires Iso(phi, n1, n2)
    ensures SameOutcome(phi, Bare(lib, n1, repo, dir, t), Bare(lib, n2, repo, dir, t))
  {
    hide Listing, Choose, Own, Iso, InRepo, InTarget, IsBuiltin, Corr;
    InRepoIso(phi, n1, n2, repo);
    InTargetIso(phi, lib, InRepo(n1, repo), InRepo(n2, repo), dir, t);
    ListingIso(phi, lib, ByName, n1, n2, t);
    CorrEmpty(phi, Listing(lib, ByName, n1, t), Listing(lib, ByName, n2, t));
    ListingIso(phi, lib, ByPackage, n1, n2, t);
    CorrEmpty(phi, Listing(lib, ByPackage, n1, t), Listing(lib, ByPackage, n2, t));
    OwnIso(phi, lib, InRepo(n1, repo), InRepo(n2, repo), t);
    OwnIso(phi, lib, InTarget(lib, InRepo(n1, repo), dir, t), InTarget(lib, InRepo(n2, repo), dir, t), lib.stem(t));
    ChooseIso(phi, lib, ByName, n1, n2, t, repo, Heuristic);
    ChooseIso(phi, lib, ByPackage, n1, n2, t, repo, Heuristic);
    NothingIso(phi);
  }

  lemma NothingIso(phi: map<Id, Id>)
    ensures Corr(phi, {}, {})
  {
  }

  /** The qualified target of an import is declared at most once. */
  ghost predicate ImportDeclaredOnce(lib: Lib, nodes: Table, t: string) {
    !IsPath(t) && SplitQualified(t).Some? ==>
      DeclaredOnce(lib, nodes, SplitQualified(t).value.0, SplitQualified(t).value.1)
  }

  lemma MeaningIso(phi: map<Id, Id>, lib: Lib, n1: Table, n2: Table, repo: nat, dir: Option<string>, t: string)
    requires Iso(phi, n1, n2) && ImportDeclaredOnce(lib, n1, t)
    ensures SameOutcome(phi, Meaning(lib, n1, repo, dir, t), Meaning(lib, n2, repo, dir, t))
  {
    hide Qualified, Bare, Iso, SplitQualified, Corr, DeclaredOnce;
    BareIso(phi, lib, n1, n2, repo, dir, t);
    if !IsPath(t) && SplitQualified(t).Some? {
      var (package, name) := SplitQualified(t).value;
      QualifiedIso(phi, lib, n1, n2, repo, package, name);
      CorrEmpty(phi, Qualified(lib, n1, repo, package, name).ids, Qualified(lib, n2, repo, package, name).ids);
    }
  }

  // ------------------------------------------------------------------ facts

  /** The same nodes are listed under the same keys, equally often. */
  ghost predicate SameBuckets(phi: map<Id, Id>, n1: Table, b1: Buckets, b2: Buckets) {
    forall t, id :: id in n1 && id in phi ==> Tally(At(b1, t), id) == Tally(At(b2, t), phi[id])
  }

  ghost predicate FactsIso(phi: map<Id, Id>, n1: Table, n2: Table, f1: Facts, f2: Facts) {
    && Iso(phi, n1, n2) && FactsLive(f1, n1) && FactsLive(f2, n2) && NoEmptyFacts(f1) && NoEmptyFacts(f2)
    && SameBuckets(phi, n1, f1.imports, f2.imports)
    && SameBuckets(phi, n1, f1.producers, f2.producers)
    && SameBuckets(phi, n1, f1.consumers, f2.consumers)
    && (forall id :: id in n1 ==> CallsOf(f1.calls, id) == CallsOf(f2.calls, phi[id]))
    && (forall id :: id in n1 ==> (id in f1.heuristic <==> phi[id] in f2.heuristic))
  }

  /** An id renamed both ways. */
  lemma Preimage(phi: map<Id, Id>, n1: Table, n2: Table, y: Id) returns (x: Id)
    requires Iso(phi, n1, n2) && y in n2
    ensures x in n1 && x in phi && phi[x] == y
  {
    assert y in phi.Values;
    x :| x in phi && phi[x] == y;
  }

  lemma ListedIso(phi: map<Id, Id>, n1: Table, b1: Buckets, b2: Buckets, t: string, id: Id)
    requires SameBuckets(phi, n1, b1, b2) && id in n1 && id in phi
    ensures id in At(b1, t) <==> phi[id] in At(b2, t)
  {
    TallyMember(At(b1, t), id);
    TallyMember(At(b2, t), phi[id]);
  }

  /** A key holds a bucket on both sides or on neither. */
  lemma KeysIso(phi: map<Id, Id>, n1: Table, n2: Table, b1: Buckets, b2: Buckets)
    requires Iso(phi, n1, n2) && SameBuckets(phi, n1, b1, b2) && NoEmptyBucket(b1) && NoEmptyBucket(b2)
    requires forall t, id :: id in At(b1, t) ==> id in n1
    requires forall t, id :: id in At(b2, t) ==> id in n2
    ensures b1.Keys == b2.Keys
  {
    forall t ensures t in b1 <==> t in b2 {
      if t in b1 {
        var id := b1[t][0];
        assert id in At(b1, t);
        ListedIso(phi, n1, b1, b2, t, id);
      }
      if t in b2 {
        var y := b2[t][0];
        assert y in At(b2, t);
        var x := Preimage(phi, n1, n2, y);
        ListedIso(phi, n1, b1, b2, t, x);
      }
    }
  }

  ghost function Move(phi: map<Id, Id>, e: Edge): Edge
    requires e.from in phi && e.to in phi
  {
    Edge(phi[e.from], phi[e.to], e.kind, e.metadata, e.confidence)
  }

  lemma SourcesIso(phi: map<Id, Id>, n1: Table, n2: Table)
    requires Iso(phi, n1, n2)
    ensures Iso(phi, Sources(n1), Sources(n2))
  {
  }

  // ------------------------------------------------------------------ import edges

  lemma HitsIso(phi: map<Id, Id>, lib: Lib, n1: Table, n2: Table, importer: Id, t: string, to: Id)
    requires Iso(phi, n1, n2) && ImportDeclaredOnce(lib, n1, t) && importer in phi && to in phi
    ensures Hits(lib, n1, importer, t, to) <==> Hits(lib, n2, phi[importer], t, phi[to])
    ensures Hits(lib, n1, importer, t, to) ==>
      Targets(lib, n1, importer, t).confidence == Targets(lib, n2, phi[importer], t).confidence
  {
    hide Meaning, ImportDeclaredOnce;
    if importer in n1 {
      MeaningIso(phi, lib, n1, n2, n1[importer].repo, ImporterDir(lib, n1[importer], t), t);
    }
  }

  lemma ImportEdgeIso(phi: map<Id, Id>, lib: Lib, n1: Table, n2: Table, b1: Buckets, b2: Buckets, e: Edge)
    requires Iso(phi, n1, n2) && SameBuckets(phi, n1, b1, b2)
    requires forall t :: t in b1 ==> ImportDeclaredOnce(lib, n1, t)
    requires e.from in phi && e.to in phi && e.from in n1
    ensures ImportEdge(lib, n1, b1, e) <==> ImportEdge(lib, n2, b2, Move(phi, e))
  {
    hide Hits, Targets, Iso, ImportDeclaredOnce, SameBuckets;
    forall t ensures e.from in At(b1, t) <==> phi[e.from] in At(b2, t) {
      ListedIso(phi, n1, b1, b2, t, e.from);
    }
    forall t | e.from in At(b1, t)
      ensures Hits(lib, n1, e.from, t, e.to) <==> Hits(lib, n2, phi[e.from], t, phi[e.to]) {
      HitsIso(phi, lib, n1, n2, e.from, t, e.to);
    }
    if e.from in At(b1, e.metadata) {
      HitsIso(phi, lib, n1, n2, e.from, e.metadata, e.to);
    }
  }

  // ------------------------------------------------------------------ topic edges

  lemma HeardOnIso(phi: map<Id, Id>, n1: Table, f1: Facts, f2: Facts, key: string, s: string, p: Id)
    requires SameBuckets(phi, n1, f1.producers, f2.producers) && SameBuckets(phi, n1, f1.consumers, f2.consumers)
    requires p in n1 && p in phi
    ensures HeardOn(f1, key, s, p) <==> HeardOn(f2, key, s, phi[p])
  {
    hide IsPattern, Subjects.Matches;
    ListedIso(phi, n1, f1.producers, f2.producers, s, p);
    ListedIso(phi, n1, f1.consumers, f2.consumers, key, p);
  }

  lemma HeardMember(f: Facts, key: string, p: Id)
    ensures p in Heard(f, key) <==> p !in At(f.producers, key) && exists s :: HeardOn(f, key, s, p)
  {
    hide IsPattern, Subjects.Matches;
    if p !in At(f.producers, key) && exists s :: HeardOn(f, key, s, p) {
      var s :| HeardOn(f, key, s, p);
      assert s in f.producers;
    }
  }

  lemma HeardIso(phi: map<Id, Id>, n1: Table, n2: Table, f1: Facts, f2: Facts, key: string)
    requires FactsIso(phi, n1, n2, f1, f2)
    ensures Corr(phi, Heard(f1, key), Heard(f2, key))
    ensures |Heard(f1, key)| == |Heard(f2, key)|
  {
    hide IsPattern, Subjects.Matches, Heard, HeardOn, SameBuckets;
    forall p | p in n1 ensures p in Heard(f1, key) <==> phi[p] in Heard(f2, key) {
      HeardMember(f1, key, p);
      HeardMember(f2, key, phi[p]);
      ListedIso(phi, n1, f1.producers, f2.producers, key, p);
      forall s { HeardOnIso(phi, n1, f1, f2, key, s, p); }
    }
    HeardLive(f1, n1, key);
    HeardLive(f2, n2, key);
    forall p | p in phi ensures p in Heard(f1, key) <==> phi[p] in Heard(f2, key) {}
    assert Heard(f2, key) <= n2.Keys <= phi.Values;
    CorrSize(phi, Heard(f1, key), Heard(f2, key));
  }

  lemma HeardLive(f: Facts, n: Table, key: string)
    requires FactsLive(f, n)
    ensures Heard(f, key) <= n.Keys
  {
    hide IsPattern, Subjects.Matches;
    forall p | p in Heard(f, key) ensures p in n {
      var s :| s in f.producers && p in f.producers[s];
      assert p in At(f.producers, s);
    }
  }

  lemma WildcardIso(phi: map<Id, Id>, n1: Table, n2: Table, f1: Facts, f2: Facts, key: string)
    requires FactsIso(phi, n1, n2, f1, f2)
    ensures Wildcard(n1, f1, key) <==> Wildcard(n2, f2, key)
    ensures NotTruncated(n1, f1, key) <==> NotTruncated(n2, f2, key)
  {
    hide IsPattern, Heard;
    HeardIso(phi, n1, n2, f1, f2, key);
    var c1, c2 := At(f1.consumers, key), At(f2.consumers, key);
    if SubjectConsumer(n1, c1) {
      var i :| 0 <= i < |c1| && (c1[i] in n1 ==> !(n1[c1[i]].kind in {KafkaTopic, Queue}));
      assert c1[i] in c1;
      ListedIso(phi, n1, f1.consumers, f2.consumers, key, c1[i]);
      var j :| 0 <= j < |c2| && c2[j] == phi[c1[i]];
      assert SubjectConsumer(n2, c2);
    }
    if SubjectConsumer(n2, c2) {
      var j :| 0 <= j < |c2| && (c2[j] in n2 ==> !(n2[c2[j]].kind in {KafkaTopic, Queue}));
      assert c2[j] in c2;
      var x := Preimage(phi, n1, n2, c2[j]);
      ListedIso(phi, n1, f1.consumers, f2.consumers, key, x);
      var i :| 0 <= i < |c1| && c1[i] == x;
      assert SubjectConsumer(n1, c1);
    }
  }

  lemma DirectEdgeIso(phi: map<Id, Id>, n1: Table, n2: Table, f1: Facts, f2: Facts, key: string, hub: Id, e: Edge)
    requires FactsIso(phi, n1, n2, f1, f2) && hub in phi && e.from in n1 && e.to in n1
    ensures DirectEdge(f1, key, hub, e) <==> DirectEdge(f2, key, phi[hub], Move(phi, e))
  {
    hide SameBuckets;
    ListedIso(phi, n1, f1.producers, f2.producers, key, e.from);
    ListedIso(phi, n1, f1.consumers, f2.consumers, key, e.to);
  }

  lemma WildcardEdgeIso(phi: map<Id, Id>, n1: Table, n2: Table, f1: Facts, f2: Facts, key: string, hub: Id, e: Edge)
    requires FactsIso(phi, n1, n2, f1, f2) && hub in phi && e.from in n1 && e.to in n1
    requires |Heard(f1, key)| <= MAX_WILDCARD_PRODUCERS
    ensures WildcardEdge(f1, key, hub, e) <==> WildcardEdge(f2, key, phi[hub], Move(phi, e))
  {
    hide Heard, HeardOn, SameBuckets, Less, Kept;
    HeardIso(phi, n1, n2, f1, f2, key);
    AllKept(f1, key);
    AllKept(f2, key);
    forall s { HeardOnIso(phi, n1, f1, f2, key, s, e.from); }
  }

  /** Which producers a truncated subscription keeps depends on the order of the facts; otherwise ids do not matter. */
  lemma TopicEdgeIso(phi: map<Id, Id>, n1: Table, n2: Table, f1: Facts, f2: Facts, key: string, hub: Id, e: Edge)
    requires FactsIso(phi, n1, n2, f1, f2) && hub in phi && e.from in n1 && e.to in n1 && NotTruncated(n1, f1, key)
    ensures TopicEdge(n1, f1, key, hub, e) <==> TopicEdge(n2, f2, key, phi[hub], Move(phi, e))
  {
    hide FactsIso, DirectEdge, WildcardEdge, Wildcard;
    DirectEdgeIso(phi, n1, n2, f1, f2, key, hub, e);
    WildcardIso(phi, n1, n2, f1, f2, key);
    if Wildcard(n1, f1, key) {
      WildcardEdgeIso(phi, n1, n2, f1, f2, key, hub, e);
    }
  }

  // ------------------------------------------------------------------ handlers and calls

  lemma RecordedIso(phi: map<Id, Id>, n1: Table, n2: Table, f1: Facts, f2: Facts, id: Id, r: string)
    requires FactsIso(phi, n1, n2, f1, f2) && id in n1
    ensures (id, r) in f1.calls <==> (phi[id], r) in f2.calls
  {
    CallsOfMember(f1.calls, id);
    CallsOfMember(f2.calls, phi[id]);
  }

  lemma ConstPairsIso(phi: map<Id, Id>, n1: Table, n2: Table, f1: Facts, f2: Facts, key: string)
    requires FactsIso(phi, n1, n2, f1, f2)
    ensures ConstPairs(n1, f1.calls, key) == ConstPairs(n2, f2.calls, key)
  {
    hide Assignment, SameBuckets;
    forall p | p in ConstPairs(n1, f1.calls, key) ensures p in ConstPairs(n2, f2.calls, key) {
      var c :| c in f1.calls && c.0 in n1 && Assignment(c.1, '$') == Some((key, p.1)) && n1[c.0].repo == p.0;
      RecordedIso(phi, n1, n2, f1, f2, c.0, c.1);
      assert (phi[c.0], c.1) in f2.calls;
    }
    forall p | p in ConstPairs(n2, f2.calls, key) ensures p in ConstPairs(n1, f1.calls, key) {
      var c :| c in f2.calls && c.0 in n2 && Assignment(c.1, '$') == Some((key, p.1)) && n2[c.0].repo == p.0;
      var x := Preimage(phi, n1, n2, c.0);
      RecordedIso(phi, n1, n2, f1, f2, x, c.1);
      assert (x, c.1) in f1.calls;
    }
  }

  lemma FieldPairsIso(phi: map<Id, Id>, n1: Table, n2: Table, f1: Facts, f2: Facts, class_: string, field: string)
    requires FactsIso(phi, n1, n2, f1, f2)
    ensures FieldPairs(n1, f1.calls, class_, field) == FieldPairs(n2, f2.calls, class_, field)
  {
    hide Assignment, SameBuckets;
    forall p | p in FieldPairs(n1, f1.calls, class_, field) ensures p in FieldPairs(n2, f2.calls, class_, field) {
      var c :| c in f1.calls && c.0 in n1 && n1[c.0].name == class_ && Assignment(c.1, '#') == Some((field, p.1))
        && n1[c.0].repo == p.0;
      RecordedIso(phi, n1, n2, f1, f2, c.0, c.1);
      assert (phi[c.0], c.1) in f2.calls;
    }
    forall p | p in FieldPairs(n2, f2.calls, class_, field) ensures p in FieldPairs(n1, f1.calls, class_, field) {
      var c :| c in f2.calls && c.0 in n2 && n2[c.0].name == class_ && Assignment(c.1, '#') == Some((field, p.1))
        && n2[c.0].repo == p.0;
      var x := Preimage(phi, n1, n2, c.0);
      RecordedIso(phi, n1, n2, f1, f2, x, c.1);
      assert (x, c.1) in f1.calls;
    }
  }

  lemma ProtoNamedIso(phi: map<Id, Id>, lib: Lib, n1: Table, n2: Table, name: string, package: Option<string>)
    requires Iso(phi, n1, n2)
    ensures |ProtoNamed(lib, n1, name, package)| == |ProtoNamed(lib, n2, name, package)|
  {
    assert Corr(phi, ProtoNamed(lib, n1, name, package), ProtoNamed(lib, n2, name, package));
    CorrSize(phi, ProtoNamed(lib, n1, name, package), ProtoNamed(lib, n2, name, package));
  }

  lemma RefTargetIso(phi: map<Id, Id>, lib: Lib, n1: Table, n2: Table, f1: Facts, f2: Facts, repo: nat,
        reference: string)
    requires FactsIso(phi, n1, n2, f1, f2)
    ensures RefTarget(lib, n1, f1.calls, repo, reference) == RefTarget(lib, n2, f2.calls, repo, reference)
  {
    hide ConstPairs, ProtoNamed, HandlerRef, Preferred, TheOnly, IsQuoted;
    match HandlerRef(reference)
    case None =>
    case Some((serviceExpr, rpcExpr)) =>
      ConstPairsIso(phi, n1, n2, f1, f2, lib.trim(serviceExpr));
      ConstPairsIso(phi, n1, n2, f1, f2, lib.trim(rpcExpr));
      var service, rpc := Literal(lib, n1, f1.calls, serviceExpr, repo), Literal(lib, n1, f1.calls, rpcExpr, repo);
      if service.Some? && rpc.Some? {
        var (package, bare) :=
          match RSplitOnce(service.value, '.') case Some((q, s)) => (Some(q), s) case None => (None, service.value);
        ProtoNamedIso(phi, lib, n1, n2, bare + "." + rpc.value, package);
      }
  }

  lemma {:induction false} LastTargetIso(phi: map<Id, Id>, lib: Lib, n1: Table, n2: Table, f1: Facts, f2: Facts,
        repo: nat, records: seq<string>)
    requires FactsIso(phi, n1, n2, f1, f2)
    ensures LastTarget(lib, n1, f1.calls, repo, records) == LastTarget(lib, n2, f2.calls, repo, records)
  {
    if records != [] {
      hide RefTarget, FactsIso;
      var last := StripPrefix(records[|records| - 1], '@');
      if last.Some? {
        RefTargetIso(phi, lib, n1, n2, f1, f2, repo, last.value);
      }
      LastTargetIso(phi, lib, n1, n2, f1, f2, repo, records[..|records| - 1]);
    }
  }

  lemma HandlerRpcIso(phi: map<Id, Id>, lib: Lib, n1: Table, n2: Table, f1: Facts, f2: Facts, id: Id)
    requires FactsIso(phi, n1, n2, f1, f2) && id in n1
    ensures HandlerRpc(lib, n1, f1.calls, id) == HandlerRpc(lib, n2, f2.calls, phi[id])
  {
    hide LastTarget, SameBuckets;
    LastTargetIso(phi, lib, n1, n2, f1, f2, n1[id].repo, CallsOf(f1.calls, id));
  }

  lemma ImplementsEdgeIso(phi: map<Id, Id>, lib: Lib, n1: Table, n2: Table, f1: Facts, f2: Facts, e: Edge)
    requires FactsIso(phi, n1, n2, f1, f2) && e.from in n1 && e.to in n1
    ensures ImplementsEdge(lib, n1, f1.calls, e) <==> ImplementsEdge(lib, n2, f2.calls, Move(phi, e))
  {
    hide HandlerRpc, IsHandler, IsProtoMethod, SignatureContains, BareNamesMatch, EqIgnoreCase, SameBuckets;
    HandlerRpcIso(phi, lib, n1, n2, f1, f2, e.from);
  }

  lemma ChoosePackageIso(phi: map<Id, Id>, n1: Table, n2: Table, s1: set<Id>, s2: set<Id>, package: string,
        c: Confidence)
    requires Iso(phi, n1, n2) && Corr(phi, s1, s2) && s1 <= n1.Keys && s2 <= n2.Keys
    ensures SameOutcome(phi, ChoosePackage(n1, s1, package, c), ChoosePackage(n2, s2, package, c))
  {
    var same1 := set id | id in s1 && id in n1 && n1[id].package == package;
    var same2 := set id | id in s2 && id in n2 && n2[id].package == package;
    assert Corr(phi, same1, same2);
    CorrSize(phi, s1, s2);
    CorrSize(phi, same1, same2);
    CorrEmpty(phi, same1, same2);
  }

  lemma PickPackageIso(phi: map<Id, Id>, n1: Table, n2: Table, s1: set<Id>, s2: set<Id>, package: Option<string>,
        c: Confidence, unowned: Confidence)
    requires Iso(phi, n1, n2) && Corr(phi, s1, s2) && s1 <= n1.Keys && s2 <= n2.Keys
    ensures SameOutcome(phi, PickPackage(n1, s1, package, c, unowned), PickPackage(n2, s2, package, c, unowned))
  {
    hide ChoosePackage, Iso;
    match package
    case Some(p) => ChoosePackageIso(phi, n1, n2, s1, s2, p, c);
    case None =>
  }

  lemma ListedTargetsIso(phi: map<Id, Id>, lib: Lib, n1: Table, n2: Table, key: string)
    requires Iso(phi, n1, n2)
    ensures Corr(phi, FqcnListed(lib, n1, key), FqcnListed(lib, n2, key))
    ensures Corr(phi, BareListed(lib, n1, key), BareListed(lib, n2, key))
  {
    hide IsProtoMethod, LastSegment;
  }

  lemma ResolveTargetIso(phi: map<Id, Id>, lib: Lib, n1: Table, n2: Table, package: Option<string>, target: string)
    requires Iso(phi, n1, n2)
    ensures SameOutcome(phi, ResolveTarget(lib, n1, package, target), ResolveTarget(lib, n2, package, target))
  {
    hide PickPackage, Iso, Corr, LastSegment;
    var full, bare := lib.lower(target), lib.lower(LastSegment(target));
    ListedTargetsIso(phi, lib, n1, n2, full);
    ListedTargetsIso(phi, lib, n1, n2, bare);
    CorrEmpty(phi, FqcnListed(lib, n1, full), FqcnListed(lib, n2, full));
    CorrEmpty(phi, BareListed(lib, n1, bare), BareListed(lib, n2, bare));
    PickPackageIso(phi, n1, n2, FqcnListed(lib, n1, full), FqcnListed(lib, n2, full), package, Exact, Exact);
    PickPackageIso(phi, n1, n2, BareListed(lib, n1, bare), BareListed(lib, n2, bare), package, Heuristic, Ambiguous);
    NothingIso(phi);
  }

  lemma ResolveCallIso(phi: map<Id, Id>, lib: Lib, n1: Table, n2: Table, package: Option<string>, target: string)
    requires Iso(phi, n1, n2)
    ensures SameOutcome(phi, ResolveCall(lib, n1, package, target), ResolveCall(lib, n2, package, target))
  {
    hide ResolveTarget, MayAddService, IsHealthService;
    ResolveTargetIso(phi, lib, n1, n2, package, target);
    ResolveTargetIso(phi, lib, n1, n2, package, target + "Service");
    CorrEmpty(phi, ResolveTarget(lib, n1, package, target).ids, ResolveTarget(lib, n2, package, target).ids);
  }

  lemma ResolveMethodIso(phi: map<Id, Id>, lib: Lib, n1: Table, n2: Table, package: Option<string>, target: string,
        inferred: bool)
    requires Iso(phi, n1, n2)
    ensures SameOutcome(phi, ResolveMethod(lib, n1, package, target, inferred),
      ResolveMethod(lib, n2, package, target, inferred))
  {
    hide PickPackage, Iso, Corr;
    var key, c := lib.lower(target), if inferred then Heuristic else Exact;
    ListedTargetsIso(phi, lib, n1, n2, key);
    PickPackageIso(phi, n1, n2, FqcnListed(lib, n1, key), FqcnListed(lib, n2, key), package, c, c);
  }

  lemma AttemptIso(phi: map<Id, Id>, lib: Lib, n1: Table, n2: Table, f1: Facts, f2: Facts, caller: Id, record: string)
    requires FactsIso(phi, n1, n2, f1, f2) && caller in n1
    ensures AttemptOf(n1, f1.calls, caller, record) == AttemptOf(n2, f2.calls, phi[caller], record)
    ensures forall a :: Skipped(lib, n1, f1.calls, caller, a) <==> Skipped(lib, n2, f2.calls, phi[caller], a)
  {
    hide FieldPairs, HandlerRpc, Served, Delegates, IsHealthName, Preferred, TheOnly, ServiceFromField, SameBuckets;
    HandlerRpcIso(phi, lib, n1, n2, f1, f2, caller);
    if record != "" && record[0] == '^' && SplitOnce(record[1..], '#').Some? {
      var (base, rest) := SplitOnce(record[1..], '#').value;
      if SplitOnce(rest, '.').Some? {
        FieldPairsIso(phi, n1, n2, f1, f2, base, SplitOnce(rest, '.').value.0);
      }
    }
  }

  lemma CallOutcomeIso(phi: map<Id, Id>, lib: Lib, n1: Table, n2: Table, f1: Facts, f2: Facts, caller: Id,
        record: string)
    requires FactsIso(phi, n1, n2, f1, f2) && caller in n1
    ensures CallOutcome(lib, n1, f1.calls, caller, record).0 == CallOutcome(lib, n2, f2.calls, phi[caller], record).0
    ensures SameOutcome(phi, CallOutcome(lib, n1, f1.calls, caller, record).1,
      CallOutcome(lib, n2, f2.calls, phi[caller], record).1)
  {
    hide AttemptOf, Skipped, ResolveCall, ResolveMethod, SameBuckets, Corr;
    AttemptIso(phi, lib, n1, n2, f1, f2, caller, record);
    NothingIso(phi);
    var a := AttemptOf(n1, f1.calls, caller, record);
    if a.Some? {
      var package := Some(n1[caller].package);
      ResolveCallIso(phi, lib, n1, n2, package, a.value.target);
      ResolveMethodIso(phi, lib, n1, n2, package, a.value.target, a.value.inferred);
    }
  }

  lemma CallEdgeIso(phi: map<Id, Id>, lib: Lib, n1: Table, n2: Table, f1: Facts, f2: Facts, e: Edge)
    requires FactsIso(phi, n1, n2, f1, f2) && e.from in n1 && e.to in n1
    ensures CallEdge(lib, n1, f1.calls, e) <==> CallEdge(lib, n2, f2.calls, Move(phi, e))
  {
    hide CallOutcome, SameBuckets;
    var records := CallsOf(f1.calls, e.from);
    var e' := Move(phi, e);
    forall r: string {
      CallOutcomeIso(phi, lib, n1, n2, f1, f2, e.from, r);
    }
    assert forall j :: 0 <= j < |records| ==>
      (CallYields(lib, n1, f1.calls, records, j, e) <==> CallYields(lib, n2, f2.calls, records, j, e'));
  }
}
