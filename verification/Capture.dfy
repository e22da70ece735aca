/**
 * Imports are resolved before hubs are refreshed, against indices that still hold the hubs of the previous call.
 * A hub can therefore capture an import. This module says exactly when.
 */
module Capture {
  import opened Text
  import opened GraphModel
  import opened Imports
  import opened ImportMeaning
  import opened ImportPass
  import opened Reconciled

  ghost function QualifiedPart(t: string): Option<(string, string)> {
    if IsPath(t) then None else SplitQualified(t)
  }

  /** The key names the import by its qualified name inside the reserved package. */
  ghost predicate CapturedByName(t: string, key: string) {
    QualifiedPart(t) == Some((BUS, key))
  }

  /** The key's qualified name spells the import's, and the importer's repository declares none of its own. */
  ghost predicate CapturedByFqcn(lib: Lib, src: Table, repo: nat, t: string, key: string) {
    var q := QualifiedPart(t);
    && q.Some?
    && Listing(lib, ByName, InPackage(src, q.value.0), q.value.1) == {}
    && q.value.0 + "/" + q.value.1 == BUS + "/" + key
    && Listing(lib, ByFqcn, InRepo(src, repo), q.value.0 + "/" + q.value.1) == {}
  }

  /** The key is the imported bare name, and the importer's repository declares none of its own. */
  ghost predicate CapturedBare(lib: Lib, src: Table, repo: nat, t: string, key: string) {
    var q := QualifiedPart(t);
    && (q.Some? ==> Qualified(lib, src, repo, q.value.0, q.value.1).ids == {})
    && !IsBuiltin(t) && t == key
    && Listing(lib, ByName, InRepo(src, repo), t) == {}
  }

  /** A hub of `key` would capture an import of `t` from `repo`. */
  ghost predicate Captured(lib: Lib, src: Table, repo: nat, t: string, key: string) {
    CapturedByName(t, key) || CapturedByFqcn(lib, src, repo, t, key) || CapturedBare(lib, src, repo, t, key)
  }

  // ------------------------------------------------------------------ tables with and without hubs

  lemma OwnRepo(lib: Lib, nodes: Table, repo: nat)
    requires HubsOk(lib, nodes) && repo != NO_REPO
    ensures InRepo(nodes, repo) == InRepo(Sources(nodes), repo)
  {
  }

  lemma OwnPackage(lib: Lib, nodes: Table, package: string)
    requires HubsOk(lib, nodes) && package != BUS
    ensures InPackage(nodes, package) == InPackage(Sources(nodes), package)
  {
  }

  /** Under a name, the table lists the sources and the hub of that key. */
  lemma NameListing(lib: Lib, nodes: Table, key: string)
    requires HubsOk(lib, nodes)
    ensures Listing(lib, ByName, nodes, key)
      == Listing(lib, ByName, Sources(nodes), key) + (set id | id in nodes && IsHubOf(nodes, key, id))
  {
  }

  lemma FqcnListing(lib: Lib, nodes: Table, key: string)
    requires HubsOk(lib, nodes)
    ensures Listing(lib, ByFqcn, nodes, key)
         == Listing(lib, ByFqcn, Sources(nodes), key)
            + (set id | id in nodes && nodes[id].package == BUS && BUS + "/" + nodes[id].name == key)
  {
  }

  /** With a candidate in the importer's repository, only that repository matters. */
  lemma ChooseOwn(lib: Lib, a: Attribute, nodes: Table, key: string, repo: nat, c: Confidence)
    requires Listing(lib, a, InRepo(nodes, repo), key) != {}
    ensures
      var own := InRepo(nodes, repo);
      Choose(lib, a, nodes, key, repo, c)
      == Outcome(Listing(lib, a, own, key), if Lone(lib, a, own, key) then c else Ambiguous)
  {
    hide Multiplicity;
    var own := InRepo(nodes, repo);
    assert Listing(lib, a, own, key) <= Listing(lib, a, nodes, key);
    if Lone(lib, a, nodes, key) {
      var id :| id in nodes && Listing(lib, a, nodes, key) == {id} && Multiplicity(lib, a, nodes[id], key) == 1;
      var x :| x in Listing(lib, a, own, key);
      assert x in Listing(lib, a, nodes, key);
      assert Listing(lib, a, own, key) == {id};
      assert Lone(lib, a, own, key);
    }
  }

  /** Without one, every listed candidate is reported. */
  lemma ChooseAll(lib: Lib, a: Attribute, nodes: Table, key: string, repo: nat, c: Confidence)
    requires Listing(lib, a, InRepo(nodes, repo), key) == {}
    ensures Choose(lib, a, nodes, key, repo, c).ids == Listing(lib, a, nodes, key)
  {
    hide Multiplicity;
  }

  // ------------------------------------------------------------------ exactness

  /** A hub of the key answers the fully-qualified strategy. */
  ghost predicate Qualifies(lib: Lib, src: Table, repo: nat, t: string, key: string) {
    CapturedByName(t, key) || CapturedByFqcn(lib, src, repo, t, key)
  }

  /**
   * The table's hub of `key` is what an import of `t` from `repo` resolves to: by bare name only when no hub qualifies.
   */
  ghost predicate Takes(lib: Lib, nodes: Table, repo: nat, t: string, key: string) {
    var src := Sources(nodes);
    && HasHub(nodes, key)
    && (Qualifies(lib, src, repo, t, key)
        || (CapturedBare(lib, src, repo, t, key) && forall k :: HasHub(nodes, k) ==> !Qualifies(lib, src, repo, t, k)))
  }

  /** `sub` is the table without some of its hubs. */
  ghost predicate Trimmed(nodes: Table, sub: Table) {
    && (forall id :: id in sub ==> id in nodes && sub[id] == nodes[id])
    && (forall id :: id in nodes && nodes[id].package != BUS ==> id in sub)
  }

  /** No hub that `sub` lacks takes the import. */
  ghost predicate Untaken(lib: Lib, nodes: Table, sub: Table, repo: nat, t: string) {
    forall key, id :: IsHubOf(nodes, key, id) && id !in sub ==> !Takes(lib, nodes, repo, t, key)
  }

  /** No hub that `sub` lacks answers the fully-qualified strategy. */
  ghost predicate Unqualified(lib: Lib, nodes: Table, sub: Table, repo: nat, t: string) {
    forall key, id :: IsHubOf(nodes, key, id) && id !in sub ==> !Qualifies(lib, Sources(nodes), repo, t, key)
  }

  lemma TrimmedOk(lib: Lib, nodes: Table, sub: Table, repo: nat)
    requires HubsOk(lib, nodes) && Trimmed(nodes, sub) && repo != NO_REPO
    ensures HubsOk(lib, sub) && Sources(sub) == Sources(nodes) && InRepo(sub, repo) == InRepo(nodes, repo)
  {
    assert Sources(sub) == Sources(nodes);
    OwnRepo(lib, nodes, repo);
    OwnRepo(lib, sub, repo);
  }

  /** In the reserved package, the nodes listed under a name are hubs of that key. */
  lemma BusListing(lib: Lib, nodes: Table, name: string)
    requires HubsOk(lib, nodes)
    ensures forall id :: id in Listing(lib, ByName, InPackage(nodes, BUS), name) <==> IsHubOf(nodes, name, id)
  {
  }

  /** Equal listings and equal own tables choose alike. */
  lemma SameChoose(lib: Lib, a: Attribute, nodes: Table, sub: Table, key: string, repo: nat, c: Confidence)
    requires Listing(lib, a, nodes, key) == Listing(lib, a, sub, key) && InRepo(nodes, repo) == InRepo(sub, repo)
    requires forall id :: id in sub ==> id in nodes && nodes[id] == sub[id]
    ensures Choose(lib, a, nodes, key, repo, c) == Choose(lib, a, sub, key, repo, c)
  {
    hide Multiplicity, Listing;
    assert Lone(lib, a, nodes, key) <==> Lone(lib, a, sub, key) by {
      if Lone(lib, a, nodes, key) {
        var id :| id in nodes && Listing(lib, a, nodes, key) == {id} && Multiplicity(lib, a, nodes[id], key) == 1;
        ListedIn(lib, a, sub, key, id);
      }
    }
  }

  lemma ListedIn(lib: Lib, a: Attribute, nodes: Table, key: string, id: Id)
    requires id in Listing(lib, a, nodes, key)
    ensures id in nodes
  {
  }

  /** The declarations of the qualified name in its package, hubs included. */
  lemma ExactListing(lib: Lib, nodes: Table, sub: Table, repo: nat, t: string)
    requires HubsOk(lib, nodes) && Trimmed(nodes, sub) && QualifiedPart(t).Some?
    requires Unqualified(lib, nodes, sub, repo, t)
    ensures
      var (package, name) := QualifiedPart(t).value;
      Listing(lib, ByName, InPackage(nodes, package), name) == Listing(lib, ByName, InPackage(sub, package), name)
  {
    hide Multiplicity, SplitQualified;
    var (package, name) := QualifiedPart(t).value;
    if package == BUS {
      BusListing(lib, nodes, name);
      forall id | IsHubOf(nodes, name, id) ensures id in sub {
        assert CapturedByName(t, name);
      }
    }
  }

  /** The fully-qualified listing, hubs included, when the importer's repository has no entry of its own. */
  lemma FqcnUntaken(lib: Lib, nodes: Table, sub: Table, repo: nat, t: string)
    requires HubsOk(lib, nodes) && Trimmed(nodes, sub) && QualifiedPart(t).Some?
    requires Unqualified(lib, nodes, sub, repo, t)
    requires
      var (package, name) := QualifiedPart(t).value;
      && Listing(lib, ByName, InPackage(Sources(nodes), package), name) == {}
      && Listing(lib, ByFqcn, InRepo(Sources(nodes), repo), package + "/" + name) == {}
    ensures
      var fqcn := QualifiedPart(t).value.0 + "/" + QualifiedPart(t).value.1;
      Listing(lib, ByFqcn, nodes, fqcn) == Listing(lib, ByFqcn, sub, fqcn)
  {
    hide Multiplicity, SplitQualified;
    var (package, name) := QualifiedPart(t).value;
    var fqcn := package + "/" + name;
    forall id | id in Listing(lib, ByFqcn, nodes, fqcn) ensures id in sub {
      if nodes[id].package == BUS {
        FqcnListing(lib, nodes, fqcn);
        assert IsHubOf(nodes, nodes[id].name, id);
        assert CapturedByFqcn(lib, Sources(nodes), repo, t, nodes[id].name);
      }
    }
  }

  lemma PackageSources(lib: Lib, nodes: Table, package: string, name: string)
    ensures Listing(lib, ByName, InPackage(Sources(nodes), package), name)
         <= Listing(lib, ByName, InPackage(nodes, package), name)
  {
  }

  lemma QualifiedUntaken(lib: Lib, nodes: Table, sub: Table, repo: nat, t: string)
    requires HubsOk(lib, nodes) && Trimmed(nodes, sub) && repo != NO_REPO && QualifiedPart(t).Some?
    requires Unqualified(lib, nodes, sub, repo, t)
    ensures
      var (package, name) := QualifiedPart(t).value;
      Qualified(lib, nodes, repo, package, name) == Qualified(lib, sub, repo, package, name)
  {
    hide Multiplicity, Lone, SplitQualified, Choose, Listing, Unqualified, Trimmed, HubsOk;
    var (package, name) := QualifiedPart(t).value;
    var src, fqcn := Sources(nodes), package + "/" + name;
    ExactListing(lib, nodes, sub, repo, t);
    TrimmedOk(lib, nodes, sub, repo);
    OwnRepo(lib, nodes, repo);
    if Listing(lib, ByName, InPackage(nodes, package), name) == {} {
      PackageSources(lib, nodes, package, name);
      if Listing(lib, ByFqcn, InRepo(src, repo), fqcn) == {} {
        FqcnUntaken(lib, nodes, sub, repo, t);
        assert forall id :: id in sub ==> id in nodes && nodes[id] == sub[id] by { TrimmedPart(nodes, sub); }
        SameChoose(lib, ByFqcn, nodes, sub, fqcn, repo, Exact);
      } else {
        ChooseOwn(lib, ByFqcn, nodes, fqcn, repo, Exact);
        ChooseOwn(lib, ByFqcn, sub, fqcn, repo, Exact);
        OwnListed(lib, ByFqcn, nodes, fqcn, repo);
        OwnListed(lib, ByFqcn, sub, fqcn, repo);
      }
    }
  }

  lemma TrimmedPart(nodes: Table, sub: Table)
    requires Trimmed(nodes, sub)
    ensures forall id :: id in sub ==> id in nodes && nodes[id] == sub[id]
  {
  }

  lemma OwnListed(lib: Lib, a: Attribute, nodes: Table, key: string, repo: nat)
    ensures Listing(lib, a, InRepo(nodes, repo), key) <= Listing(lib, a, nodes, key)
  {
  }

  lemma NoBusPackage(lib: Lib, nodes: Table, t: string)
    requires '/' in t || '.' in t
    ensures Listing(lib, ByPackage, nodes, t) == Listing(lib, ByPackage, Sources(nodes), t)
  {
    assert t != BUS;
  }

  /** The bare name's listing, hubs included. */
  lemma NameUntaken(lib: Lib, nodes: Table, sub: Table, t: string)
    requires HubsOk(lib, nodes) && Trimmed(nodes, sub)
    requires forall id :: IsHubOf(nodes, t, id) ==> id in sub
    ensures Listing(lib, ByName, nodes, t) == Listing(lib, ByName, sub, t)
  {
    hide Multiplicity;
    NameListing(lib, nodes, t);
    forall id | id in Listing(lib, ByName, nodes, t) ensures id in sub {}
  }

  lemma BareUntaken(lib: Lib, nodes: Table, sub: Table, repo: nat, dir: Option<string>, t: string)
    requires HubsOk(lib, nodes) && Trimmed(nodes, sub) && repo != NO_REPO
    requires IsBuiltin(t) || Listing(lib, ByName, InRepo(Sources(nodes), repo), t) != {} || forall id ::
      IsHubOf(nodes, t, id) ==> id in sub
    ensures Bare(lib, nodes, repo, dir, t) == Bare(lib, sub, repo, dir, t)
  {
    hide Multiplicity, Lone, Choose, IsBuiltin, InTarget, Listing, HubsOk, IsHubOf;
    TrimmedOk(lib, nodes, sub, repo);
    TrimmedPart(nodes, sub);
    hide Trimmed;
    OwnRepo(lib, nodes, repo);
    if !IsBuiltin(t) {
      if Listing(lib, ByName, InRepo(nodes, repo), t) != {} {
        OwnListed(lib, ByName, nodes, t, repo);
        OwnListed(lib, ByName, sub, t, repo);
        ChooseOwn(lib, ByName, nodes, t, repo, Heuristic);
        ChooseOwn(lib, ByName, sub, t, repo, Heuristic);
      } else {
        NameUntaken(lib, nodes, sub, t);
        SameChoose(lib, ByName, nodes, sub, t, repo, Heuristic);
        if '/' in t || '.' in t {
          NoBusPackage(lib, nodes, t);
          NoBusPackage(lib, sub, t);
          SameChoose(lib, ByPackage, nodes, sub, t, repo, Heuristic);
        }
      }
    }
  }

  /** Leaving out hubs that do not take the import does not change what it resolves to. */
  lemma MeaningUntaken(lib: Lib, nodes: Table, sub: Table, repo: nat, dir: Option<string>, t: string)
    requires HubsOk(lib, nodes) && Trimmed(nodes, sub) && repo != NO_REPO && Untaken(lib, nodes, sub, repo, t)
    ensures Meaning(lib, nodes, repo, dir, t) == Meaning(lib, sub, repo, dir, t)
  {
    hide Qualified, Bare, IsBuiltin, HubsOk, Trimmed, SplitQualified;
    var q := QualifiedPart(t);
    if q.Some? {
      TakesQualified(lib, nodes, sub, repo, t);
      QualifiedUntaken(lib, nodes, sub, repo, t);
    }
    if q.None? || Qualified(lib, nodes, repo, q.value.0, q.value.1).ids == {} {
      if !IsBuiltin(t) && Listing(lib, ByName, InRepo(Sources(nodes), repo), t) == {} {
        forall id | IsHubOf(nodes, t, id) ensures id in sub {
          BareTakes(lib, nodes, repo, t);
        }
      }
      BareUntaken(lib, nodes, sub, repo, dir, t);
    }
  }

  /** With no qualified answer, the hub of the bare name takes the import. */
  lemma BareTakes(lib: Lib, nodes: Table, repo: nat, t: string)
    requires HubsOk(lib, nodes) && repo != NO_REPO && HasHub(nodes, t)
    requires QualifiedPart(t).Some? ==>
      Qualified(lib, nodes, repo, QualifiedPart(t).value.0, QualifiedPart(t).value.1).ids == {}
    requires !IsBuiltin(t) && Listing(lib, ByName, InRepo(Sources(nodes), repo), t) == {}
    ensures Takes(lib, nodes, repo, t, t)
  {
    hide Qualified, IsBuiltin, HubsOk, SplitQualified, Listing;
    forall k | HasHub(nodes, k) ensures !Qualifies(lib, Sources(nodes), repo, t, k) {
      if Qualifies(lib, Sources(nodes), repo, t, k) {
        var hub :| IsHubOf(nodes, k, hub);
        QualifiedHasPart(lib, Sources(nodes), repo, t, k);
        QualifiedHit(lib, nodes, repo, t, k, hub);
      }
    }
    if QualifiedPart(t).Some? {
      NoHubQualifies(lib, nodes, repo, t);
    }
  }

  lemma TakesQualified(lib: Lib, nodes: Table, sub: Table, repo: nat, t: string)
    requires Untaken(lib, nodes, sub, repo, t)
    ensures Unqualified(lib, nodes, sub, repo, t)
  {
    hide Qualifies, CapturedBare;
    forall key, id | IsHubOf(nodes, key, id) && id !in sub ensures !Qualifies(lib, Sources(nodes), repo, t, key) {
      assert HasHub(nodes, key);
      assert !Takes(lib, nodes, repo, t, key);
    }
  }

  /** When no hub qualifies, the qualified answer is the sources'. */
  lemma NoHubQualifies(lib: Lib, nodes: Table, repo: nat, t: string)
    requires HubsOk(lib, nodes) && repo != NO_REPO && QualifiedPart(t).Some?
    requires forall k :: HasHub(nodes, k) ==> !Qualifies(lib, Sources(nodes), repo, t, k)
    ensures
      var (package, name) := QualifiedPart(t).value;
      Qualified(lib, nodes, repo, package, name) == Qualified(lib, Sources(nodes), repo, package, name)
  {
    hide Qualified, SplitQualified, Qualifies, HubsOk;
    forall key, id | IsHubOf(nodes, key, id) ensures !Qualifies(lib, Sources(nodes), repo, t, key) {
      assert HasHub(nodes, key);
    }
    QualifiedUntaken(lib, nodes, Sources(nodes), repo, t);
  }

  lemma QualifiedHit(lib: Lib, nodes: Table, repo: nat, t: string, key: string, hub: Id)
    requires HubsOk(lib, nodes) && repo != NO_REPO && IsHubOf(nodes, key, hub) && QualifiedPart(t).Some?
    requires Qualifies(lib, Sources(nodes), repo, t, key)
    ensures hub in Qualified(lib, nodes, repo, QualifiedPart(t).value.0, QualifiedPart(t).value.1).ids
  {
    hide Multiplicity, Lone, SplitQualified, Choose;
    var (package, name) := QualifiedPart(t).value;
    var fqcn := package + "/" + name;
    if package == BUS {
      SamePrefix(BUS + "/", name, key);
      BusListing(lib, nodes, name);
      var exact := Listing(lib, ByName, InPackage(nodes, BUS), name);
      forall x | x in exact ensures x == hub {
        HubUnique(lib, nodes, name, x, hub);
      }
      assert IsLeast(hub, exact);
    } else {
      OwnPackage(lib, nodes, package);
      OwnRepo(lib, nodes, repo);
      FqcnListing(lib, nodes, fqcn);
      assert hub in Listing(lib, ByFqcn, nodes, fqcn);
      ChooseAll(lib, ByFqcn, nodes, fqcn, repo, Exact);
    }
  }

  lemma SamePrefix(p: string, a: string, b: string)
    ensures p + a == p + b ==> a == b
  {
    assert (p + a)[|p|..] == a && (p + b)[|p|..] == b;
  }

  lemma BareHit(lib: Lib, nodes: Table, repo: nat, dir: Option<string>, t: string, hub: Id)
    requires HubsOk(lib, nodes) && repo != NO_REPO && IsHubOf(nodes, t, hub)
    requires !IsBuiltin(t) && Listing(lib, ByName, InRepo(Sources(nodes), repo), t) == {}
    ensures hub in Bare(lib, nodes, repo, dir, t).ids
  {
    hide Multiplicity, Lone, Choose, IsBuiltin, HubsOk, Listing, InRepo, Own, InTarget;
    NameListing(lib, nodes, t);
    assert hub in Listing(lib, ByName, nodes, t);
    OwnRepo(lib, nodes, repo);
    ChooseAll(lib, ByName, nodes, t, repo, Heuristic);
  }

  /** An import resolves to a hub if and only if that hub takes it. */
  lemma HubHit(lib: Lib, nodes: Table, repo: nat, dir: Option<string>, t: string, key: string, hub: Id)
    requires HubsOk(lib, nodes) && repo != NO_REPO && IsHubOf(nodes, key, hub)
    ensures hub in Meaning(lib, nodes, repo, dir, t).ids <==> Takes(lib, nodes, repo, t, key)
  {
    hide Qualified, Bare, IsBuiltin, HubsOk, SplitQualified, Listing, Qualifies;
    assert HasHub(nodes, key);
    var src, q := Sources(nodes), QualifiedPart(t);
    if Takes(lib, nodes, repo, t, key) {
      if Qualifies(lib, src, repo, t, key) {
        assert q.Some? by { QualifiedHasPart(lib, src, repo, t, key); }
        QualifiedHit(lib, nodes, repo, t, key, hub);
      } else {
        if q.Some? {
          NoHubQualifies(lib, nodes, repo, t);
        }
        BareHit(lib, nodes, repo, dir, t, hub);
      }
    } else {
      hide Takes, Meaning;
      var sub := map id | id in nodes && id != hub :: nodes[id];
      forall k, id | IsHubOf(nodes, k, id) && id !in sub ensures !Takes(lib, nodes, repo, t, k) {}
      MeaningUntaken(lib, nodes, sub, repo, dir, t);
      MeaningLive(lib, sub, repo, dir, t);
    }
  }

  lemma QualifiedHasPart(lib: Lib, src: Table, repo: nat, t: string, key: string)
    requires Qualifies(lib, src, repo, t, key)
    ensures QualifiedPart(t).Some?
  {
  }

  /** An import no hub captures resolves as if there were no hubs. */
  lemma NotCaptured(lib: Lib, nodes: Table, repo: nat, dir: Option<string>, t: string)
    requires HubsOk(lib, nodes) && repo != NO_REPO
    requires forall key :: HasHub(nodes, key) ==> !Captured(lib, Sources(nodes), repo, t, key)
    ensures Meaning(lib, nodes, repo, dir, t) == Meaning(lib, Sources(nodes), repo, dir, t)
  {
    hide Meaning, HubsOk, CapturedByName, CapturedByFqcn, CapturedBare;
    MeaningUntaken(lib, nodes, Sources(nodes), repo, dir, t);
  }

  // ------------------------------------------------------------------ import edges

  /** Importers are source nodes, and no source node claims the hubs' repository. */
  ghost predicate ImportersOk(nodes: Table, imports: Buckets) {
    && (forall t, id :: id in At(imports, t) ==> id in Sources(nodes))
    && (forall id :: id in Sources(nodes) ==> nodes[id].repo != NO_REPO)
  }

  /** The hub of `key` takes this import fact. */
  ghost predicate FactTaken(lib: Lib, nodes: Table, imports: Buckets, importer: Id, t: string, key: string) {
    importer in At(imports, t) && importer in nodes && Takes(lib, nodes, nodes[importer].repo, t, key)
  }

  /** A hub whose key has none in `other` takes an import. */
  ghost predicate TakenBeyond(lib: Lib, nodes: Table, imports: Buckets, other: Table) {
    exists importer, t, key :: FactTaken(lib, nodes, imports, importer, t, key) && !HasHub(other, key)
  }

  /** Some hub of the table captures this import fact. */
  ghost predicate FactCaptured(lib: Lib, nodes: Table, imports: Buckets, importer: Id, t: string) {
    && importer in At(imports, t) && importer in Sources(nodes)
    && exists key :: HasHub(nodes, key) && Captured(lib, Sources(nodes), nodes[importer].repo, t, key)
  }

  ghost predicate AnyCaptured(lib: Lib, nodes: Table, imports: Buckets) {
    exists importer, t :: FactCaptured(lib, nodes, imports, importer, t)
  }

  /** Where some hub would capture an import, some hub takes it. */
  lemma CapturedIsTaken(lib: Lib, nodes: Table, repo: nat, t: string, key: string) returns (taker: string)
    requires HasHub(nodes, key) && Captured(lib, Sources(nodes), repo, t, key)
    ensures Takes(lib, nodes, repo, t, taker)
  {
    hide CapturedByName, CapturedByFqcn, CapturedBare;
    taker := key;
    if k :| HasHub(nodes, k) && Qualifies(lib, Sources(nodes), repo, t, k) {
      taker := k;
    }
  }

  /** Some import is captured if and only if some hub takes one. */
  lemma CapturedIffTaken(lib: Lib, nodes: Table, imports: Buckets)
    requires ImportersOk(nodes, imports)
    ensures AnyCaptured(lib, nodes, imports) <==> TakenBeyond(lib, nodes, imports, Sources(nodes))
  {
    hide Captured, Takes;
    assert forall key :: !HasHub(Sources(nodes), key);
    if AnyCaptured(lib, nodes, imports) {
      var importer, t :| FactCaptured(lib, nodes, imports, importer, t);
      var key :| HasHub(nodes, key) && Captured(lib, Sources(nodes), nodes[importer].repo, t, key);
      var taker := CapturedIsTaken(lib, nodes, nodes[importer].repo, t, key);
      assert FactTaken(lib, nodes, imports, importer, t, taker);
    }
    if TakenBeyond(lib, nodes, imports, Sources(nodes)) {
      var importer, t, key :| FactTaken(lib, nodes, imports, importer, t, key);
      TakenIsCaptured(lib, nodes, nodes[importer].repo, t, key);
      assert FactCaptured(lib, nodes, imports, importer, t);
    }
  }

  lemma TakenIsCaptured(lib: Lib, nodes: Table, repo: nat, t: string, key: string)
    requires Takes(lib, nodes, repo, t, key)
    ensures HasHub(nodes, key) && Captured(lib, Sources(nodes), repo, t, key)
  {
    hide CapturedByName, CapturedByFqcn, CapturedBare;
  }

  /** No hub that `sub` lacks takes any import. */
  ghost predicate NoneTaken(lib: Lib, nodes: Table, sub: Table, imports: Buckets) {
    forall importer, t, key, id :: FactTaken(lib, nodes, imports, importer, t, key) && IsHubOf(nodes, key, id) ==>
      id in sub
  }

  lemma HitsTrimmed(lib: Lib, nodes: Table, sub: Table, imports: Buckets, importer: Id, t: string)
    requires HubsOk(lib, nodes) && ImportersOk(nodes, imports) && Trimmed(nodes, sub)
    requires NoneTaken(lib, nodes, sub, imports) && importer in At(imports, t)
    ensures importer in nodes && importer in sub && Targets(lib, nodes, importer, t) == Targets(lib, sub, importer, t)
  {
    hide Meaning, HubsOk, Takes;
    var repo := nodes[importer].repo;
    forall key, id | IsHubOf(nodes, key, id) && id !in sub ensures !Takes(lib, nodes, repo, t, key) {
      assert !FactTaken(lib, nodes, imports, importer, t, key);
    }
    MeaningUntaken(lib, nodes, sub, repo, ImporterDir(lib, nodes[importer], t), t);
  }

  /** Leaving out hubs that take no import leaves the import edges alone. */
  lemma EdgesTrimmed(lib: Lib, nodes: Table, sub: Table, imports: Buckets, e: Edge)
    requires HubsOk(lib, nodes) && ImportersOk(nodes, imports) && Trimmed(nodes, sub)
    requires NoneTaken(lib, nodes, sub, imports)
    ensures ImportEdge(lib, nodes, imports, e) <==> ImportEdge(lib, sub, imports, e)
  {
    hide Targets, HubsOk, ImportersOk, Trimmed, NoneTaken;
    forall t | e.from in At(imports, t) ensures Hits(lib, nodes, e.from, t, e.to) <==> Hits(lib, sub, e.from, t, e.to) {
      HitsTrimmed(lib, nodes, sub, imports, e.from, t);
    }
    if e.from in At(imports, e.metadata) {
      HitsTrimmed(lib, nodes, sub, imports, e.from, e.metadata);
    }
  }

  /** Reaching a node yields an edge to it, labelled by the least target. */
  lemma ReachedEdge(lib: Lib, nodes: Table, imports: Buckets, importer: Id, t: string, to: Id) returns (e: Edge)
    requires importer in At(imports, t) && Hits(lib, nodes, importer, t, to)
    ensures e.from == importer && e.to == to && ImportEdge(lib, nodes, imports, e)
  {
    hide Hits, Targets;
    var reaching := set x | x in imports && importer in imports[x] && Hits(lib, nodes, importer, x, to);
    assert t in reaching;
    var least := LeastString(reaching);
    assert importer in nodes by { HitLive(lib, nodes, importer, least, to); }
    e := Edge(importer, to, EdgeKind.Imports, least, Targets(lib, nodes, importer, least).confidence);
    forall x | importer in At(imports, x) && Less(x, least) ensures !Hits(lib, nodes, importer, x, to) {
      assert x !in reaching;
    }
  }

  lemma HitLive(lib: Lib, nodes: Table, importer: Id, t: string, to: Id)
    requires Hits(lib, nodes, importer, t, to)
    ensures importer in nodes && to in nodes
  {
    MeaningLive(lib, nodes, nodes[importer].repo, ImporterDir(lib, nodes[importer], t), t);
  }

  lemma MeaningLive(lib: Lib, nodes: Table, repo: nat, dir: Option<string>, t: string)
    ensures Meaning(lib, nodes, repo, dir, t).ids <= nodes.Keys
  {
    hide Multiplicity, Lone, SplitQualified, IsBuiltin;
  }

  /** A taken import shows as an edge to the hub that takes it. */
  lemma TakenEdge(lib: Lib, nodes: Table, imports: Buckets, importer: Id, t: string, key: string, hub: Id)
    returns (e: Edge)
    requires HubsOk(lib, nodes) && ImportersOk(nodes, imports) && FactTaken(lib, nodes, imports, importer, t, key)
    requires IsHubOf(nodes, key, hub)
    ensures ImportEdge(lib, nodes, imports, e) && e.to == hub
  {
    hide Meaning, HubsOk, Takes;
    assert importer in Sources(nodes);
    HubHit(lib, nodes, nodes[importer].repo, ImporterDir(lib, nodes[importer], t), t, key, hub);
    assert Hits(lib, nodes, importer, t, hub);
    e := ReachedEdge(lib, nodes, imports, importer, t, hub);
  }

  /** An import edge to a hub comes from a fact that hub takes. */
  lemma EdgeToHub(lib: Lib, nodes: Table, imports: Buckets, e: Edge, key: string)
    requires HubsOk(lib, nodes) && ImportersOk(nodes, imports) && ImportEdge(lib, nodes, imports, e)
    requires IsHubOf(nodes, key, e.to)
    ensures FactTaken(lib, nodes, imports, e.from, e.metadata, key)
  {
    hide Meaning, HubsOk, Takes;
    assert e.from in Sources(nodes);
    HubHit(lib, nodes, nodes[e.from].repo, ImporterDir(lib, nodes[e.from], e.metadata), e.metadata, key, e.to);
  }

  /** A captured import shows as an edge to a hub. */
  lemma CapturedEdge(lib: Lib, nodes: Table, imports: Buckets) returns (e: Edge)
    requires HubsOk(lib, nodes) && ImportersOk(nodes, imports) && AnyCaptured(lib, nodes, imports)
    ensures ImportEdge(lib, nodes, imports, e) && e.to in nodes && nodes[e.to].package == BUS
  {
    hide Meaning, HubsOk, AnyCaptured, Takes, ImportEdge;
    CapturedIffTaken(lib, nodes, imports);
    var importer, t, key :| FactTaken(lib, nodes, imports, importer, t, key) && !HasHub(Sources(nodes), key);
    var hub := TakerHub(lib, nodes, imports, importer, t, key);
    e := TakenEdge(lib, nodes, imports, importer, t, key, hub);
  }

  lemma TakerHub(lib: Lib, nodes: Table, imports: Buckets, importer: Id, t: string, key: string) returns (hub: Id)
    requires FactTaken(lib, nodes, imports, importer, t, key)
    ensures IsHubOf(nodes, key, hub)
  {
    hub :| IsHubOf(nodes, key, hub);
  }

  /** Exactly the captured imports make stale hubs visible. */
  lemma HubsShowIffCaptured(lib: Lib, nodes: Table, imports: Buckets)
    requires HubsOk(lib, nodes) && ImportersOk(nodes, imports)
    ensures !AnyCaptured(lib, nodes, imports)
       <==> forall e :: ImportEdge(lib, nodes, imports, e) <==> ImportEdge(lib, Sources(nodes), imports, e)
  {
    hide ImportersOk, HubsOk, AnyCaptured, ImportEdge, FactTaken, Sources;
    if !AnyCaptured(lib, nodes, imports) {
      CapturedIffTaken(lib, nodes, imports);
      NothingTaken(lib, nodes, imports);
      forall e ensures ImportEdge(lib, nodes, imports, e) <==> ImportEdge(lib, Sources(nodes), imports, e) {
        EdgesTrimmed(lib, nodes, Sources(nodes), imports, e);
      }
    } else {
      var e := CapturedEdge(lib, nodes, imports);
      SourceEdge(lib, nodes, imports, e);
    }
  }

  lemma NothingTaken(lib: Lib, nodes: Table, imports: Buckets)
    requires !TakenBeyond(lib, nodes, imports, Sources(nodes))
    ensures NoneTaken(lib, nodes, Sources(nodes), imports) && Trimmed(nodes, Sources(nodes))
  {
    hide FactTaken;
    assert forall key :: !HasHub(Sources(nodes), key);
  }

  lemma SourceEdge(lib: Lib, nodes: Table, imports: Buckets, e: Edge)
    ensures ImportEdge(lib, Sources(nodes), imports, e) ==> e.to in nodes && nodes[e.to].package != BUS
  {
    hide Hits, Targets;
    if ImportEdge(lib, Sources(nodes), imports, e) {
      HitLive(lib, Sources(nodes), e.from, e.metadata, e.to);
    }
  }

  // ------------------------------------------------------------------ two tables of the same sources

  /** The second table keeps the first one's nodes, but for hubs that have no hub of their key in it. */
  ghost predicate Follows(pre: Table, nodes: Table) {
    && Sources(pre) == Sources(nodes)
    && (forall id :: id in pre && id in nodes ==> pre[id] == nodes[id])
    && (forall key, id :: IsHubOf(pre, key, id) && HasHub(nodes, key) ==> id in nodes)
  }

  /** The nodes both tables hold. */
  function Common(pre: Table, nodes: Table): Table {
    map id | id in pre && id in nodes :: pre[id]
  }

  lemma CommonTrims(lib: Lib, pre: Table, nodes: Table, imports: Buckets)
    requires HubsOk(lib, pre) && HubsOk(lib, nodes) && Follows(pre, nodes)
    requires !TakenBeyond(lib, pre, imports, nodes) && !TakenBeyond(lib, nodes, imports, pre)
    ensures Trimmed(pre, Common(pre, nodes)) && NoneTaken(lib, pre, Common(pre, nodes), imports)
    ensures Trimmed(nodes, Common(pre, nodes)) && NoneTaken(lib, nodes, Common(pre, nodes), imports)
  {
    hide FactTaken;
    forall id | id in Sources(pre) ensures id in nodes { assert id in Sources(nodes); }
    forall id | id in Sources(nodes) ensures id in pre { assert id in Sources(pre); }
    forall importer, t, key, id | FactTaken(lib, pre, imports, importer, t, key) && IsHubOf(pre, key, id)
      ensures id in Common(pre, nodes) {
      assert HasHub(nodes, key);
    }
    forall importer, t, key, id | FactTaken(lib, nodes, imports, importer, t, key) && IsHubOf(nodes, key, id)
      ensures id in Common(pre, nodes) {
      assert HasHub(pre, key);
      var x :| IsHubOf(pre, key, x);
      assert x in nodes;
      HubUnique(lib, nodes, key, id, x);
    }
  }

  /**
   * Imports resolve to the same edges against both tables if and only if no hub of the one that the other lacks takes
   * an import: neither a hub that is dropped nor one that is new.
   */
  lemma SameImportEdges(lib: Lib, pre: Table, nodes: Table, imports: Buckets)
    requires HubsOk(lib, pre) && HubsOk(lib, nodes) && ImportersOk(pre, imports) && ImportersOk(nodes, imports)
    requires Follows(pre, nodes)
    ensures (forall e :: ImportEdge(lib, pre, imports, e) <==> ImportEdge(lib, nodes, imports, e))
       <==> !TakenBeyond(lib, pre, imports, nodes) && !TakenBeyond(lib, nodes, imports, pre)
  {
    hide HubsOk, ImportersOk, ImportEdge, FactTaken, Follows, Common;
    if TakenBeyond(lib, pre, imports, nodes) {
      var e := BeyondEdge(lib, pre, nodes, imports);
    } else if TakenBeyond(lib, nodes, imports, pre) {
      FollowsBack(lib, pre, nodes);
      var e := BeyondEdge(lib, nodes, pre, imports);
    } else {
      CommonTrims(lib, pre, nodes, imports);
      forall e ensures ImportEdge(lib, pre, imports, e) <==> ImportEdge(lib, nodes, imports, e) {
        EdgesTrimmed(lib, pre, Common(pre, nodes), imports, e);
        EdgesTrimmed(lib, nodes, Common(pre, nodes), imports, e);
      }
    }
  }

  lemma FollowsBack(lib: Lib, pre: Table, nodes: Table)
    requires HubsOk(lib, pre) && HubsOk(lib, nodes) && Follows(pre, nodes)
    ensures Follows(nodes, pre)
  {
    forall key, id | IsHubOf(nodes, key, id) && HasHub(pre, key) ensures id in pre {
      var x :| IsHubOf(pre, key, x);
      assert HasHub(nodes, key);
      HubUnique(lib, nodes, key, id, x);
    }
  }

  /** A hub the other table lacks takes an import: its edge has no counterpart there. */
  lemma BeyondEdge(lib: Lib, pre: Table, nodes: Table, imports: Buckets) returns (e: Edge)
    requires HubsOk(lib, pre) && ImportersOk(pre, imports) && Follows(pre, nodes)
    requires TakenBeyond(lib, pre, imports, nodes)
    ensures ImportEdge(lib, pre, imports, e) && !ImportEdge(lib, nodes, imports, e) && e.to !in nodes
  {
    hide HubsOk, ImportersOk, ImportEdge, FactTaken;
    var importer, t, key :| FactTaken(lib, pre, imports, importer, t, key) && !HasHub(nodes, key);
    var hub := TakerHub(lib, pre, imports, importer, t, key);
    e := TakenEdge(lib, pre, imports, importer, t, key, hub);
    assert hub in nodes ==> IsHubOf(nodes, key, hub);
    if ImportEdge(lib, nodes, imports, e) {
      EdgeLive(lib, nodes, imports, e);
    }
  }

  lemma EdgeLive(lib: Lib, nodes: Table, imports: Buckets, e: Edge)
    requires ImportEdge(lib, nodes, imports, e)
    ensures e.from in nodes && e.to in nodes
  {
    hide Hits, Targets;
    HitLive(lib, nodes, e.from, e.metadata, e.to);
  }
}
