/** What an import resolves to, read off the node table alone: no index, no list order, no memo. */
module ImportMeaning {
  import opened Text
  import opened Seqs
  import opened GraphModel
  import opened Imports

  /** A set of targets and the confidence they share. */
  datatype Outcome = Outcome(ids: set<Id>, confidence: Confidence)

  function InRepo(nodes: Table, repo: nat): Table {
    map id | id in nodes && nodes[id].repo == repo :: nodes[id]
  }

  function InPackage(nodes: Table, package: string): Table {
    map id | id in nodes && nodes[id].package == package :: nodes[id]
  }

  function InTarget(lib: Lib, nodes: Table, dir: Option<string>, t: string): Table {
    map id | id in nodes && (dir.Some? ==> NamedBy(lib, nodes[id].file, dir.value, t)) :: nodes[id]
  }

  /** The nodes listed under a key. */
  function Listing(lib: Lib, a: Attribute, nodes: Table, key: string): set<Id> {
    set id | id in nodes && Multiplicity(lib, a, nodes[id], key) > 0
  }

  /** Exactly one node is listed under the key, once. */
  ghost predicate Lone(lib: Lib, a: Attribute, nodes: Table, key: string) {
    exists id :: id in nodes && Listing(lib, a, nodes, key) == {id} && Multiplicity(lib, a, nodes[id], key) == 1
  }

  /** A lone candidate, or a lone one in the importer's repository, wins; otherwise the tie is reported whole. */
  ghost function Choose(lib: Lib, a: Attribute, nodes: Table, key: string, repo: nat, c: Confidence): Outcome {
    var own := InRepo(nodes, repo);
    if Lone(lib, a, nodes, key) then Outcome(Listing(lib, a, nodes, key), c)
    else if Lone(lib, a, own, key) then Outcome(Listing(lib, a, own, key), c)
    else if Listing(lib, a, own, key) == {} then Outcome(Listing(lib, a, nodes, key), Ambiguous)
    else Outcome(Listing(lib, a, own, key), Ambiguous)
  }

  /** Candidates already confined to one repository. */
  ghost function Own(lib: Lib, own: Table, key: string): Outcome {
    Outcome(Listing(lib, ByName, own, key), if Lone(lib, ByName, own, key) then Heuristic else Ambiguous)
  }

  ghost predicate IsLeast(x: Id, s: set<Id>) {
    x in s && forall y :: y in s ==> x <= y
  }

  ghost function Qualified(lib: Lib, nodes: Table, repo: nat, package: string, name: string): Outcome {
    var exact := Listing(lib, ByName, InPackage(nodes, package), name);
    if exact != {} then Outcome((set id | id in exact && IsLeast(id, exact)), Exact)
    else
      var fqcn := package + "/" + name;
      if Listing(lib, ByFqcn, nodes, fqcn) != {} then Choose(lib, ByFqcn, nodes, fqcn, repo, Exact)
      else Outcome({}, Exact)
  }

  ghost function Bare(lib: Lib, nodes: Table, repo: nat, dir: Option<string>, t: string): Outcome {
    if IsBuiltin(t) then Own(lib, InRepo(nodes, repo), t)
    else if Listing(lib, ByName, nodes, t) != {} then Choose(lib, ByName, nodes, t, repo, Heuristic)
    else if IsPath(t) then Own(lib, InTarget(lib, InRepo(nodes, repo), dir, t), lib.stem(t))
    else if ('/' in t || '.' in t) && Listing(lib, ByPackage, nodes, t) != {} then
      Choose(lib, ByPackage, nodes, t, repo, Heuristic)
    else Outcome({}, Heuristic)
  }

  ghost function Meaning(lib: Lib, nodes: Table, repo: nat, dir: Option<string>, t: string): Outcome {
    var q := if IsPath(t) then None else SplitQualified(t);
    if q.Some? && Qualified(lib, nodes, repo, q.value.0, q.value.1).ids != {} then
      Qualified(lib, nodes, repo, q.value.0, q.value.1)
    else Bare(lib, nodes, repo, dir, t)
  }

  /** A resolution and an outcome agree: same targets, and the same confidence when there is any. */
  ghost predicate Agree(r: Resolution, o: Outcome) {
    && (forall id :: id in r.ids <==> id in o.ids)
    && (o.ids != {} ==> r.confidence == o.confidence)
  }

  // ------------------------------------------------------------------ buckets as sets

  lemma BucketListing(lib: Lib, a: Attribute, key: string, nodes: Table, bound: nat)
    requires Below(nodes, bound)
    ensures forall id :: id in Bucket(lib, a, key, nodes, bound) <==> id in Listing(lib, a, nodes, key)
    ensures Bucket(lib, a, key, nodes, bound) == [] <==> Listing(lib, a, nodes, key) == {}
  {
    var b := Bucket(lib, a, key, nodes, bound);
    forall id: Id ensures id in b <==> id in Listing(lib, a, nodes, key) {
      BucketMember(lib, a, key, nodes, bound, id);
    }
    if b != [] {
      assert b[0] in b;
    }
  }

  lemma {:induction false} BucketLength(lib: Lib, a: Attribute, key: string, nodes: Table, bound: nat, id: Id)
    requires forall x :: 0 <= x < bound && x in nodes && Multiplicity(lib, a, nodes[x], key) > 0 ==> x == id
    ensures |Bucket(lib, a, key, nodes, bound)|
         == if id < bound && id in nodes then Multiplicity(lib, a, nodes[id], key) else 0
  {
    if bound > 0 {
      BucketLength(lib, a, key, nodes, bound - 1, id);
    }
  }

  lemma BucketLone(lib: Lib, a: Attribute, key: string, nodes: Table, bound: nat)
    requires Below(nodes, bound)
    ensures |Bucket(lib, a, key, nodes, bound)| == 1 <==> Lone(lib, a, nodes, key)
  {
    hide Bucket, Multiplicity;
    var b := Bucket(lib, a, key, nodes, bound);
    BucketListing(lib, a, key, nodes, bound);
    if b != [] {
      var id := b[0];
      assert id in b;
      if Listing(lib, a, nodes, key) == {id} {
        forall x | 0 <= x < bound && x in nodes && Multiplicity(lib, a, nodes[x], key) > 0 ensures x == id {
          assert x in Listing(lib, a, nodes, key);
        }
        BucketLength(lib, a, key, nodes, bound, id);
      } else if |b| == 1 {
        forall x | x in Listing(lib, a, nodes, key) ensures x == id {
          assert x in b;
        }
      }
    }
  }

  /** Filtering a bucket by a property of the node is the bucket of the sub-table with that property. */
  lemma {:induction false} SameRepoBucket(lib: Lib, a: Attribute, key: string, nodes: Table, bound: nat, repo: nat)
    ensures SameRepo(nodes, Bucket(lib, a, key, nodes, bound), repo) == Bucket(lib, a, key, InRepo(nodes, repo), bound)
  {
    if bound > 0 {
      SameRepoBucket(lib, a, key, nodes, bound - 1, repo);
      SameRepoStep(lib, a, key, nodes, bound, repo);
    }
  }

  lemma SameRepoStep(lib: Lib, a: Attribute, key: string, nodes: Table, bound: nat, repo: nat)
    requires bound > 0
    requires SameRepo(nodes, Bucket(lib, a, key, nodes, bound - 1), repo)
      == Bucket(lib, a, key, InRepo(nodes, repo), bound - 1)
    ensures SameRepo(nodes, Bucket(lib, a, key, nodes, bound), repo) == Bucket(lib, a, key, InRepo(nodes, repo), bound)
  {
    hide Bucket, Multiplicity, Repeat, SameRepo;
    var head := Bucket(lib, a, key, nodes, bound - 1);
    BucketStep(lib, a, key, nodes, bound);
    BucketStep(lib, a, key, InRepo(nodes, repo), bound);
    AppendNothing(head);
    AppendNothing(Bucket(lib, a, key, InRepo(nodes, repo), bound - 1));
    if bound - 1 in nodes {
      SameRepoTail(nodes, head, bound - 1, Multiplicity(lib, a, nodes[bound - 1], key), repo);
    }
  }

  lemma {:induction false} SameRepoTail(nodes: Table, ids: seq<Id>, id: Id, times: nat, repo: nat)
    requires id in nodes
    ensures SameRepo(nodes, ids + Repeat(id, times), repo)
         == SameRepo(nodes, ids, repo) + if nodes[id].repo == repo then Repeat(id, times) else []
  {
    if times == 0 {
      assert ids + Repeat(id, 0) == ids;
    } else {
      var all := ids + Repeat(id, times);
      assert all[..|all| - 1] == ids + Repeat(id, times - 1);
      SameRepoTail(nodes, ids, id, times - 1, repo);
    }
  }

  lemma {:induction false} InTargetBucket(lib: Lib, key: string, nodes: Table, bound: nat, dir: string, t: string)
    ensures InTargetFile(lib, nodes, Bucket(lib, ByName, key, nodes, bound), dir, t)
         == Bucket(lib, ByName, key, InTarget(lib, nodes, Some(dir), t), bound)
  {
    if bound > 0 {
      InTargetBucket(lib, key, nodes, bound - 1, dir, t);
      InTargetStep(lib, key, nodes, bound, dir, t);
    }
  }

  lemma InTargetStep(lib: Lib, key: string, nodes: Table, bound: nat, dir: string, t: string)
    requires bound > 0
    requires InTargetFile(lib, nodes, Bucket(lib, ByName, key, nodes, bound - 1), dir, t)
          == Bucket(lib, ByName, key, InTarget(lib, nodes, Some(dir), t), bound - 1)
    ensures InTargetFile(lib, nodes, Bucket(lib, ByName, key, nodes, bound), dir, t)
         == Bucket(lib, ByName, key, InTarget(lib, nodes, Some(dir), t), bound)
  {
    hide Bucket, Multiplicity, Repeat, InTargetFile, NamedBy;
    var head := Bucket(lib, ByName, key, nodes, bound - 1);
    BucketStep(lib, ByName, key, nodes, bound);
    BucketStep(lib, ByName, key, InTarget(lib, nodes, Some(dir), t), bound);
    AppendNothing(head);
    AppendNothing(Bucket(lib, ByName, key, InTarget(lib, nodes, Some(dir), t), bound - 1));
    if bound - 1 in nodes {
      InTargetTail(lib, nodes, head, bound - 1, Multiplicity(lib, ByName, nodes[bound - 1], key), dir, t);
    }
  }

  lemma {:induction false} InTargetTail(lib: Lib, nodes: Table, ids: seq<Id>, id: Id, times: nat, dir: string,
        t: string)
    requires id in nodes
    ensures InTargetFile(lib, nodes, ids + Repeat(id, times), dir, t)
         == InTargetFile(lib, nodes, ids, dir, t) + if NamedBy(lib, nodes[id].file, dir, t) then Repeat(id, times)
              else []
  {
    if times == 0 {
      assert ids + Repeat(id, 0) == ids;
    } else {
      var all := ids + Repeat(id, times);
      assert all[..|all| - 1] == ids + Repeat(id, times - 1);
      InTargetTail(lib, nodes, ids, id, times - 1, dir, t);
    }
  }

  lemma {:induction false} InTargetFrame(lib: Lib, nodes: Table, sub: Table, ids: seq<Id>, dir: string, t: string)
    requires forall i :: 0 <= i < |ids| ==> ids[i] in sub && ids[i] in nodes && sub[ids[i]] == nodes[ids[i]]
    ensures InTargetFile(lib, nodes, ids, dir, t) == InTargetFile(lib, sub, ids, dir, t)
  {
    if ids != [] {
      InTargetFrame(lib, nodes, sub, ids[..|ids| - 1], dir, t);
    }
  }

  predicate Declares(lib: Lib, n: Node, key: string, package: string) {
    n.package == package && Multiplicity(lib, ByName, n, key) > 0
  }

  /** `first` is the least id below `bound` that declares the name in the package. */
  ghost predicate FirstOk(lib: Lib, key: string, nodes: Table, bound: nat, package: string, first: Option<Id>) {
    && (first.None? ==> forall id :: id in nodes && id < bound ==> !Declares(lib, nodes[id], key, package))
    && (first.Some? ==> first.value in nodes && first.value < bound && Declares(lib, nodes[first.value], key, package))
    && (first.Some? ==> forall id :: id in nodes && id < bound && Declares(lib, nodes[id], key, package) ==>
         first.value <= id)
  }

  /** The first bucket entry of a package is its least id. */
  lemma {:induction false} FirstIsLeast(lib: Lib, key: string, nodes: Table, bound: nat, package: string)
    ensures FirstOk(lib, key, nodes, bound, package,
      FirstInPackage(nodes, Bucket(lib, ByName, key, nodes, bound), package))
  {
    if bound > 0 {
      hide Bucket, FirstInPackage, Multiplicity, Repeat, FirstOk;
      var head, last := Bucket(lib, ByName, key, nodes, bound - 1), bound - 1;
      FirstIsLeast(lib, key, nodes, last, package);
      BucketStep(lib, ByName, key, nodes, bound);
      FirstOkStep(lib, key, nodes, bound, package, FirstInPackage(nodes, head, package));
      if last in nodes {
        FirstTail(nodes, head, last, Multiplicity(lib, ByName, nodes[last], key), package);
      } else {
        AppendNothing(head);
      }
    } else {
      assert Bucket(lib, ByName, key, nodes, bound) == [];
    }
  }

  lemma FirstOkStep(lib: Lib, key: string, nodes: Table, bound: nat, package: string, first: Option<Id>)
    requires bound > 0 && FirstOk(lib, key, nodes, bound - 1, package, first)
    ensures FirstOk(lib, key, nodes, bound, package,
      if first.None? && bound - 1 in nodes
        && Declares(lib, nodes[bound - 1], key, package) then Some(bound - 1) else first)
  {
    hide Multiplicity;
  }

  lemma {:induction false} FirstTail(nodes: Table, ids: seq<Id>, id: Id, times: nat, package: string)
    requires id in nodes
    ensures FirstInPackage(nodes, ids + Repeat(id, times), package)
         == match FirstInPackage(nodes, ids, package)
            case Some(x) => Some(x)
            case None => if times > 0 && nodes[id].package == package then Some(id) else None
  {
    if times == 0 {
      assert ids + Repeat(id, 0) == ids;
    } else {
      var all := ids + Repeat(id, times);
      assert all[..|all| - 1] == ids + Repeat(id, times - 1);
      FirstTail(nodes, ids, id, times - 1, package);
    }
  }

  // ------------------------------------------------------------------ the code means the table reading

  lemma PickMeans(lib: Lib, a: Attribute, key: string, nodes: Table, bound: nat, repo: nat, c: Confidence)
    requires Below(nodes, bound)
    ensures Agree(PickOrAmbiguous(nodes, Bucket(lib, a, key, nodes, bound), repo, c),
      Choose(lib, a, nodes, key, repo, c))
  {
    hide Bucket, Lone, Listing, SameRepo;
    var own := InRepo(nodes, repo);
    BucketListing(lib, a, key, nodes, bound);
    BucketLone(lib, a, key, nodes, bound);
    SameRepoBucket(lib, a, key, nodes, bound, repo);
    BucketListing(lib, a, key, own, bound);
    BucketLone(lib, a, key, own, bound);
  }

  lemma {:induction false} SameRepoAll(nodes: Table, ids: seq<Id>, repo: nat)
    requires forall i :: 0 <= i < |ids| ==> ids[i] in nodes && nodes[ids[i]].repo == repo
    ensures SameRepo(nodes, ids, repo) == ids
  {
    if ids != [] {
      SameRepoAll(nodes, ids[..|ids| - 1], repo);
      assert ids == ids[..|ids| - 1] + [ids[|ids| - 1]];
    }
  }

  /** `sub` is a part of the table within one repository. */
  ghost predicate PartOfRepo(sub: Table, nodes: Table, repo: nat) {
    forall id :: id in sub ==> id in nodes && sub[id] == nodes[id] && nodes[id].repo == repo
  }

  lemma OwnMeans(lib: Lib, key: string, nodes: Table, sub: Table, bound: nat, repo: nat)
    requires Below(nodes, bound) && PartOfRepo(sub, nodes, repo)
    ensures
      var ids := Bucket(lib, ByName, key, sub, bound);
      Agree(if ids == [] then Unresolved else PickOrAmbiguous(nodes, ids, repo, Heuristic), Own(lib, sub, key))
  {
    hide Bucket, Lone, SameRepo;
    var ids := Bucket(lib, ByName, key, sub, bound);
    BucketListing(lib, ByName, key, sub, bound);
    BucketLone(lib, ByName, key, sub, bound);
    forall i | 0 <= i < |ids| ensures ids[i] in sub {
      assert ids[i] in ids;
    }
    SameRepoAll(nodes, ids, repo);
  }

  lemma QualifiedMeans(g: Lookup, bound: nat, repo: nat, package: string, name: string)
    requires g.Ok(bound)
    ensures
      var q := ResolveQualified(g, repo, package, name);
      var o := Qualified(g.lib, g.nodes, repo, package, name);
      && (q.Some? <==> o.ids != {})
      && (q.Some? ==> Agree(q.value, o))
  {
    hide Bucket, Lone, SameRepo, FirstInPackage;
    FirstIsLeast(g.lib, name, g.nodes, bound, package);
    assert At(g.names, name) == Bucket(g.lib, ByName, name, g.nodes, bound);
    var first := FirstInPackage(g.nodes, At(g.names, name), package);
    var listed := Listing(g.lib, ByName, InPackage(g.nodes, package), name);
    assert forall id :: id in listed <==> id in g.nodes && Declares(g.lib, g.nodes[id], name, package);
    if first.Some? {
      assert (set id | id in listed && IsLeast(id, listed)) == {first.value};
    } else {
      assert listed == {};
      var key := package + "/" + name;
      assert At(g.fqcns, key) == Bucket(g.lib, ByFqcn, key, g.nodes, bound);
      BucketListing(g.lib, ByFqcn, key, g.nodes, bound);
      PickMeans(g.lib, ByFqcn, key, g.nodes, bound, repo, Exact);
      assert key in g.fqcns <==> Listing(g.lib, ByFqcn, g.nodes, key) != {};
      ChooseNonempty(g.lib, ByFqcn, g.nodes, key, repo, Exact);
    }
  }

  lemma ChooseNonempty(lib: Lib, a: Attribute, nodes: Table, key: string, repo: nat, c: Confidence)
    ensures Choose(lib, a, nodes, key, repo, c).ids == {} <==> Listing(lib, a, nodes, key) == {}
  {
  }

  lemma StemMeans(g: Lookup, bound: nat, repo: nat, dir: Option<string>, t: string)
    requires g.Ok(bound)
    ensures StemCandidates(g, repo, dir, t)
         == Bucket(g.lib, ByName, g.lib.stem(t), InTarget(g.lib, InRepo(g.nodes, repo), dir, t), bound)
  {
    hide Bucket, SameRepo, InTargetFile;
    var stem := g.lib.stem(t);
    var own := InRepo(g.nodes, repo);
    assert At(g.names, stem) == Bucket(g.lib, ByName, stem, g.nodes, bound);
    SameRepoBucket(g.lib, ByName, stem, g.nodes, bound, repo);
    var ids := Bucket(g.lib, ByName, stem, own, bound);
    BucketListing(g.lib, ByName, stem, own, bound);
    match dir
    case Some(d) =>
      forall i | 0 <= i < |ids| ensures ids[i] in own {
        assert ids[i] in ids;
      }
      InTargetFrame(g.lib, g.nodes, own, ids, d, t);
      InTargetBucket(g.lib, stem, own, bound, d, t);
    case None =>
      assert InTarget(g.lib, own, None, t) == own;
  }

  lemma BareMeans(g: Lookup, bound: nat, repo: nat, dir: Option<string>, t: string)
    requires g.Ok(bound)
    ensures Agree(ResolveBare(g, repo, dir, t), Bare(g.lib, g.nodes, repo, dir, t))
  {
    hide Bucket, Lone, SameRepo, PickOrAmbiguous, IsBuiltin, Choose;
    var own := InRepo(g.nodes, repo);
    assert At(g.names, t) == Bucket(g.lib, ByName, t, g.nodes, bound);
    BucketListing(g.lib, ByName, t, g.nodes, bound);
    if IsBuiltin(t) {
      SameRepoBucket(g.lib, ByName, t, g.nodes, bound, repo);
      OwnMeans(g.lib, t, g.nodes, own, bound, repo);
    } else if t in g.names {
      PickMeans(g.lib, ByName, t, g.nodes, bound, repo, Heuristic);
    } else if IsPath(t) {
      StemMeans(g, bound, repo, dir, t);
      OwnMeans(g.lib, g.lib.stem(t), g.nodes, InTarget(g.lib, own, dir, t), bound, repo);
    } else {
      assert At(g.packages, t) == Bucket(g.lib, ByPackage, t, g.nodes, bound);
      BucketListing(g.lib, ByPackage, t, g.nodes, bound);
      PickMeans(g.lib, ByPackage, t, g.nodes, bound, repo, Heuristic);
    }
  }

  /** Index-based resolution is exactly the reading of the node table. */
  lemma ResolveMeans(g: Lookup, bound: nat, repo: nat, dir: Option<string>, t: string)
    requires g.Ok(bound)
    ensures Agree(Resolve(g, repo, dir, t), Meaning(g.lib, g.nodes, repo, dir, t))
  {
    hide ResolveBare, ResolveQualified, Bare, Qualified, SplitQualified;
    BareMeans(g, bound, repo, dir, t);
    if !IsPath(t) && SplitQualified(t).Some? {
      var (package, name) := SplitQualified(t).value;
      QualifiedMeans(g, bound, repo, package, name);
    }
  }
}
