/**
 * What the files of a workspace import, declare and name, and what every graph that stands for them therefore shows.
 */
module Places {
  import opened Text
  import opened Seqs
  import opened GraphModel
  import opened Subjects
  import opened TopicPass
  import opened Imports
  import opened ImportMeaning
  import opened Reconciled
  import opened Graph
  import opened Workspace
  import opened Renaming
  import opened Capture
  import opened Convergence

  /** A file and the position of a node in it. */
  type Place = (string, nat)

  ghost function NodeIn(w: Files, h: Place): Node
    requires HandleOk(w, h)
  {
    w[h.0].nodes[h.1]
  }

  /** The node at a place of the workspace. */
  lemma NodeAtPlace(lib: Lib, w: Files, src: Table, f: Facts, h: (string, nat)) returns (id: Id)
    requires Represented(lib, w, src, f) && HandleOk(w, h)
    ensures id in src && src[id] == w[h.0].nodes[h.1] && FactsOf(lib, w[h.0], h.1, f, id)
  {
    hide FactsOf, FactsLive, Placed;
    var origin: map<Id, (string, nat)> :| Represents(lib, w, origin, src, f);
    id := PlacedAt(w, origin, src, h);
  }

  lemma PlacedAt(w: Files, origin: map<Id, (string, nat)>, src: Table, h: (string, nat)) returns (id: Id)
    requires Placed(w, origin, src) && HandleOk(w, h)
    ensures id in origin && id in src && origin[id] == h && src[id] == w[h.0].nodes[h.1]
  {
    assert h in origin.Values;
    id :| id in origin && origin[id] == h;
  }

  /** The place of a node. */
  lemma PlaceOfNode(lib: Lib, w: Files, src: Table, f: Facts, id: Id) returns (h: (string, nat))
    requires Represented(lib, w, src, f) && id in src
    ensures HandleOk(w, h) && src[id] == w[h.0].nodes[h.1] && FactsOf(lib, w[h.0], h.1, f, id)
  {
    hide FactsOf, FactsLive;
    var origin: map<Id, (string, nat)> :| Represents(lib, w, origin, src, f);
    h := origin[id];
  }

  ghost predicate ImportsAt(w: Files, h: Place, t: string) {
    HandleOk(w, h) && (h.1, t) in w[h.0].dependencies
  }

  ghost predicate PublishesAt(lib: Lib, w: Files, h: Place, key: string) {
    HandleOk(w, h) && (h.1, key) in Topics(lib, w[h.0].producers)
  }

  ghost predicate ListensAt(lib: Lib, w: Files, h: Place, key: string) {
    HandleOk(w, h) && (h.1, key) in Topics(lib, w[h.0].consumers)
  }

  /** A node is recorded under what its place in the workspace says. */
  lemma RecordedAt(lib: Lib, w: Files, h: Place, f: Facts, id: Id, t: string)
    requires HandleOk(w, h) && FactsOf(lib, w[h.0], h.1, f, id)
    ensures id in At(f.imports, t) <==> ImportsAt(w, h, t)
    ensures id in At(f.producers, t) <==> PublishesAt(lib, w, h, t)
    ensures id in At(f.consumers, t) <==> ListensAt(lib, w, h, t)
  {
    TallyMember(w[h.0].dependencies, (h.1, t));
    TallyMember(Topics(lib, w[h.0].producers), (h.1, t));
    TallyMember(Topics(lib, w[h.0].consumers), (h.1, t));
    TallyMember(At(f.imports, t), id);
    TallyMember(At(f.producers, t), id);
    TallyMember(At(f.consumers, t), id);
  }

  // ------------------------------------------------------------------ named topics

  /** Some file's facts name the topic key. */
  ghost predicate Named(lib: Lib, w: Files, key: string) {
    exists h: Place :: PublishesAt(lib, w, h, key) || ListensAt(lib, w, h, key)
  }

  /** A file's topic names are read as keys: what it publishes or listens to as `raw` is the topic `topicKey(raw)`. */
  lemma RawTopicNamed(lib: Lib, w: Files, h: Place, raw: string)
    requires HandleOk(w, h) && ((h.1, raw) in w[h.0].producers || (h.1, raw) in w[h.0].consumers)
    ensures Named(lib, w, lib.topicKey(raw))
    ensures (h.1, raw) in w[h.0].producers ==> PublishesAt(lib, w, h, lib.topicKey(raw))
    ensures (h.1, raw) in w[h.0].consumers ==> ListensAt(lib, w, h, lib.topicKey(raw))
  {
    if (h.1, raw) in w[h.0].producers {
      TopicsMember(lib, w[h.0].producers, (h.1, raw));
    }
    if (h.1, raw) in w[h.0].consumers {
      TopicsMember(lib, w[h.0].consumers, (h.1, raw));
    }
    assert PublishesAt(lib, w, h, lib.topicKey(raw)) || ListensAt(lib, w, h, lib.topicKey(raw));
  }

  lemma TopicsMember(lib: Lib, facts: seq<Local>, x: Local)
    requires x in facts
    ensures (x.0, lib.topicKey(x.1)) in Topics(lib, facts)
  {
    var i :| 0 <= i < |facts| && facts[i] == x;
    assert Topics(lib, facts)[i] == (x.0, lib.topicKey(x.1));
  }

  lemma HubIffTopic(nodes: Table, f: Facts, key: string)
    requires HubsExact(nodes, f)
    ensures HasHub(nodes, key) <==> key in TopicKeys(f)
  {
    hide TopicKeys;
  }

  /** A key has facts if and only if some file names it. */
  lemma TopicIffNamed(lib: Lib, w: Files, src: Table, f: Facts, key: string)
    requires Represented(lib, w, src, f) && NoEmptyFacts(f) && FactsLive(f, src)
    ensures key in TopicKeys(f) <==> Named(lib, w, key)
  {
    hide FactsOf, Represented, FactsLive, NoEmptyFacts;
    if Named(lib, w, key) {
      var h: Place :| PublishesAt(lib, w, h, key) || ListensAt(lib, w, h, key);
      var id := NodeAtPlace(lib, w, src, f, h);
      RecordedAt(lib, w, h, f, id, key);
    }
    if key in TopicKeys(f) {
      var id := RecordedTopic(f, src, key);
      var h := PlaceOfNode(lib, w, src, f, id);
      RecordedAt(lib, w, h, f, id, key);
    }
  }

  lemma RecordedTopic(f: Facts, src: Table, key: string) returns (id: Id)
    requires NoEmptyFacts(f) && FactsLive(f, src) && key in TopicKeys(f)
    ensures id in src && (id in At(f.producers, key) || id in At(f.consumers, key))
  {
    var ids := if key in f.producers then f.producers[key] else f.consumers[key];
    id := ids[0];
    assert id in ids;
    assert id in At(f.producers, key) || id in At(f.consumers, key);
  }

  // ------------------------------------------------------------------ captured imports

  lemma LeastExists(s: set<Id>) returns (x: Id)
    requires s != {}
    ensures IsLeast(x, s)
    decreases s
  {
    x :| x in s;
    if s != {x} {
      var y := LeastExists(s - {x});
      assert forall z :: z in s ==> z == x || z in s - {x};
      if y < x {
        x := y;
      }
    }
  }

  ghost predicate Declares(lib: Lib, w: Files, a: Attribute, key: string, h: Place) {
    HandleOk(w, h) && Multiplicity(lib, a, NodeIn(w, h), key) > 0
  }

  ghost predicate AnyDeclares(lib: Lib, w: Files, a: Attribute, key: string) {
    exists h: Place :: Declares(lib, w, a, key, h)
  }

  ghost predicate PackageDeclares(lib: Lib, w: Files, package: string, name: string) {
    exists h: Place :: Declares(lib, w, ByName, name, h) && NodeIn(w, h).package == package
  }

  ghost predicate RepoDeclares(lib: Lib, w: Files, a: Attribute, repo: nat, key: string) {
    exists h: Place :: Declares(lib, w, a, key, h) && NodeIn(w, h).repo == repo
  }

  // What the files declare is what the table lists.

  lemma AnyListed(lib: Lib, w: Files, src: Table, f: Facts, a: Attribute, key: string)
    requires Represented(lib, w, src, f)
    ensures Listing(lib, a, src, key) != {} <==> AnyDeclares(lib, w, a, key)
  {
    hide Represented, Multiplicity, FactsOf;
    if id :| id in Listing(lib, a, src, key) {
      var h := PlaceOfNode(lib, w, src, f, id);
      assert Declares(lib, w, a, key, h);
    }
    if AnyDeclares(lib, w, a, key) {
      var h: Place :| Declares(lib, w, a, key, h);
      var id := NodeAtPlace(lib, w, src, f, h);
      assert id in Listing(lib, a, src, key);
    }
  }

  lemma RepoListed(lib: Lib, w: Files, src: Table, f: Facts, a: Attribute, repo: nat, key: string)
    requires Represented(lib, w, src, f)
    ensures Listing(lib, a, InRepo(src, repo), key) != {} <==> RepoDeclares(lib, w, a, repo, key)
  {
    hide Represented, Multiplicity, FactsOf;
    if id :| id in Listing(lib, a, InRepo(src, repo), key) {
      var h := PlaceOfNode(lib, w, src, f, id);
      assert Declares(lib, w, a, key, h) && NodeIn(w, h).repo == repo;
    }
    if RepoDeclares(lib, w, a, repo, key) {
      var h: Place :| Declares(lib, w, a, key, h) && NodeIn(w, h).repo == repo;
      var id := NodeAtPlace(lib, w, src, f, h);
      assert id in Listing(lib, a, InRepo(src, repo), key);
    }
  }

  lemma PackageListed(lib: Lib, w: Files, src: Table, f: Facts, package: string, name: string)
    requires Represented(lib, w, src, f)
    ensures Listing(lib, ByName, InPackage(src, package), name) != {} <==> PackageDeclares(lib, w, package, name)
  {
    hide Represented, Multiplicity, FactsOf;
    if id :| id in Listing(lib, ByName, InPackage(src, package), name) {
      var h := PlaceOfNode(lib, w, src, f, id);
      assert Declares(lib, w, ByName, name, h) && NodeIn(w, h).package == package;
    }
    if PackageDeclares(lib, w, package, name) {
      var h: Place :| Declares(lib, w, ByName, name, h) && NodeIn(w, h).package == package;
      var id := NodeAtPlace(lib, w, src, f, h);
      assert id in Listing(lib, ByName, InPackage(src, package), name);
    }
  }

  /** Read off the files: an import of `t` from `repo` would be captured by a hub of `key`. */
  ghost predicate FilesCapture(lib: Lib, w: Files, repo: nat, t: string, key: string) {
    var q := QualifiedPart(t);
    || q == Some((BUS, key))
    || (q.Some? && q.value.0 + "/" + q.value.1 == BUS + "/" + key
        && !PackageDeclares(lib, w, q.value.0, q.value.1)
        && !RepoDeclares(lib, w, ByFqcn, repo, q.value.0 + "/" + q.value.1))
    || (t == key && !IsBuiltin(t) && !RepoDeclares(lib, w, ByName, repo, t)
        && (q.Some? ==>
             !PackageDeclares(lib, w, q.value.0, q.value.1)
             && !AnyDeclares(lib, w, ByFqcn, q.value.0 + "/" + q.value.1)))
  }

  lemma CaptureReadOffFiles(lib: Lib, w: Files, src: Table, f: Facts, repo: nat, t: string, key: string)
    requires Represented(lib, w, src, f)
    ensures Captured(lib, src, repo, t, key) <==> FilesCapture(lib, w, repo, t, key)
  {
    hide Represented, QualifiedPart, Qualified, Listing, IsBuiltin, PackageDeclares, RepoDeclares, AnyDeclares;
    var q := QualifiedPart(t);
    RepoListed(lib, w, src, f, ByName, repo, t);
    if q.Some? {
      PackageListed(lib, w, src, f, q.value.0, q.value.1);
      RepoListed(lib, w, src, f, ByFqcn, repo, q.value.0 + "/" + q.value.1);
      AnyListed(lib, w, src, f, ByFqcn, q.value.0 + "/" + q.value.1);
      QualifiedFinds(lib, src, repo, q.value.0, q.value.1);
    }
  }

  /** The qualified strategy finds something if and only if something is listed. */
  lemma QualifiedFinds(lib: Lib, nodes: Table, repo: nat, package: string, name: string)
    ensures Qualified(lib, nodes, repo, package, name).ids != {}
       <==> Listing(lib, ByName, InPackage(nodes, package), name) != {}
            || Listing(lib, ByFqcn, nodes, package + "/" + name) != {}
  {
    hide Listing, Lone, InPackage;
    var exact := Listing(lib, ByName, InPackage(nodes, package), name);
    if exact != {} {
      var least := LeastExists(exact);
      assert least in Qualified(lib, nodes, repo, package, name).ids;
    } else {
      LoneListed(lib, ByFqcn, InRepo(nodes, repo), package + "/" + name);
    }
  }

  lemma LoneListed(lib: Lib, a: Attribute, nodes: Table, key: string)
    ensures Lone(lib, a, nodes, key) ==> Listing(lib, a, nodes, key) != {}
  {
  }

  ghost predicate ImportCaptured(lib: Lib, topics: Files, w: Files, h: Place, t: string, key: string) {
    ImportsAt(w, h, t) && Named(lib, topics, key) && FilesCapture(lib, w, NodeIn(w, h).repo, t, key)
  }

  /** Some import of the files `w` is captured by a topic the files `topics` name. */
  ghost predicate CapturedBy(lib: Lib, topics: Files, w: Files) {
    exists h: Place, t, key :: ImportCaptured(lib, topics, w, h, t, key)
  }

  /** Hubs of exactly the topics that some files name capture an import if and only if the two sets of files say so. */
  lemma CapturedIffByFiles(lib: Lib, topics: Files, w: Files, nodes: Table, f: Facts)
    requires Represented(lib, w, Sources(nodes), f) && FactsLive(f, Sources(nodes))
    requires forall key :: HasHub(nodes, key) <==> Named(lib, topics, key)
    ensures AnyCaptured(lib, nodes, f.imports) <==> CapturedBy(lib, topics, w)
  {
    hide Represented, FactsOf, FilesCapture, Captured, Named, HasHub, FactsLive;
    var src := Sources(nodes);
    if AnyCaptured(lib, nodes, f.imports) {
      var importer, t :| FactCaptured(lib, nodes, f.imports, importer, t);
      var key :| HasHub(nodes, key) && Captured(lib, src, nodes[importer].repo, t, key);
      var h := PlaceOfNode(lib, w, src, f, importer);
      RecordedAt(lib, w, h, f, importer, t);
      CaptureReadOffFiles(lib, w, src, f, nodes[importer].repo, t, key);
      assert ImportCaptured(lib, topics, w, h, t, key);
    }
    if CapturedBy(lib, topics, w) {
      var h: Place, t, key :| ImportCaptured(lib, topics, w, h, t, key);
      var importer := NodeAtPlace(lib, w, src, f, h);
      RecordedAt(lib, w, h, f, importer, t);
      CaptureReadOffFiles(lib, w, src, f, nodes[importer].repo, t, key);
      assert FactCaptured(lib, nodes, f.imports, importer, t);
    }
  }

  /** The import is spelled like the topic: as its key, or as its qualified name in the reserved package. */
  ghost predicate Spells(t: string, key: string) {
    t == key || (QualifiedPart(t).Some? && QualifiedPart(t).value.0 + "/" + QualifiedPart(t).value.1 == BUS + "/" + key)
  }

  /** No import of `w` is spelled like a topic of `topics`. */
  ghost predicate SpelledApart(lib: Lib, topics: Files, w: Files) {
    forall h: Place, t, key :: ImportsAt(w, h, t) && Named(lib, topics, key) ==> !Spells(t, key)
  }

  lemma ApartUncaptured(lib: Lib, topics: Files, w: Files)
    requires SpelledApart(lib, topics, w)
    ensures !CapturedBy(lib, topics, w)
  {
    hide QualifiedPart, Named, ImportsAt, PackageDeclares, RepoDeclares, AnyDeclares, IsBuiltin;
  }

  // ------------------------------------------------------------------ comparable workspaces

  ghost predicate DeclaresPair(lib: Lib, w: Files, package: string, name: string, h: Place) {
    Declares(lib, w, ByName, name, h) && NodeIn(w, h).package == package
  }

  /** The pair a qualified import names is declared at one place at most. */
  ghost predicate PairOnce(lib: Lib, w: Files, t: string) {
    QualifiedPart(t).Some? ==>
      var (package, name) := QualifiedPart(t).value;
      forall x: Place, y: Place :: DeclaresPair(lib, w, package, name, x) && DeclaresPair(lib, w, package, name, y) ==>
        x == y
  }

  ghost predicate PairsOnce(lib: Lib, w: Files) {
    forall h: Place, t :: ImportsAt(w, h, t) ==> PairOnce(lib, w, t)
  }

  /** Some listener of the key is on a transport that has subject wildcards. */
  ghost predicate WildcardIn(lib: Lib, w: Files, key: string) {
    IsPattern(key) && exists h: Place :: ListensAt(lib, w, h, key) && !(NodeIn(w, h).kind in {KafkaTopic, Queue})
  }

  /**
   * The place publishes to a subject the subscription hears, and neither publishes nor listens to the subscription
   * itself.
   */
  ghost predicate HeardPlace(lib: Lib, w: Files, key: string, h: Place) {
    && !PublishesAt(lib, w, h, key) && !ListensAt(lib, w, h, key)
    && exists s :: PublishesAt(lib, w, h, s) && !IsPattern(s) && Subjects.Matches(key, s)
  }

  ghost function HeardPlaces(lib: Lib, w: Files, key: string): set<Place> {
    set path, k | path in w && 0 <= k < |w[path].nodes| && HeardPlace(lib, w, key, (path, k)) :: (path, k)
  }

  /** No wildcard subscription hears more places than it keeps. */
  ghost predicate Untruncated(lib: Lib, w: Files) {
    forall key :: WildcardIn(lib, w, key) ==> |HeardPlaces(lib, w, key)| <= MAX_WILDCARD_PRODUCERS
  }

  ghost predicate Comparable(lib: Lib, w: Files) {
    PairsOnce(lib, w) && Untruncated(lib, w)
  }

  lemma UniqueInGraph(lib: Lib, w: Files, src: Table, f: Facts)
    requires Represented(lib, w, src, f) && NoEmptyFacts(f) && FactsLive(f, src)
    ensures UniqueImports(lib, src, f) <==> PairsOnce(lib, w)
  {
    hide Multiplicity, SplitQualified, FactsOf, Placed, PairOnce, ImportDeclaredOnce;
    var origin: map<Id, Place> :| Represents(lib, w, origin, src, f);
    forall t { OnceInGraph(lib, w, origin, src, t); }
    forall t | t in f.imports ensures exists h: Place :: ImportsAt(w, h, t) {
      var importer := f.imports[t][0];
      assert importer in At(f.imports, t);
      PlacedNode(w, origin, src, importer);
      RecordedAt(lib, w, origin[importer], f, importer, t);
    }
    forall h: Place, t | ImportsAt(w, h, t) ensures t in f.imports {
      var id := NodeAtPlace(lib, w, src, f, h);
      RecordedAt(lib, w, h, f, id, t);
    }
  }

  lemma PlacedNode(w: Files, origin: map<Id, Place>, src: Table, id: Id)
    requires Placed(w, origin, src) && id in src
    ensures id in origin && HandleOk(w, origin[id]) && src[id] == NodeIn(w, origin[id])
    ensures forall j :: j in origin && origin[j] == origin[id] ==> j == id
  {
  }

  lemma OnceInGraph(lib: Lib, w: Files, origin: map<Id, Place>, src: Table, t: string)
    requires Placed(w, origin, src)
    ensures ImportDeclaredOnce(lib, src, t) <==> PairOnce(lib, w, t)
  {
    hide Multiplicity, SplitQualified, Placed;
    if QualifiedPart(t).Some? {
      var (package, name) := QualifiedPart(t).value;
      var exact := Listing(lib, ByName, InPackage(src, package), name);
      if PairOnce(lib, w, t) {
        forall i, j | i in exact && j in exact ensures i == j {
          PlacedNode(w, origin, src, i);
          PlacedNode(w, origin, src, j);
          assert DeclaresPair(lib, w, package, name, origin[i]) && DeclaresPair(lib, w, package, name, origin[j]);
        }
      }
      if ImportDeclaredOnce(lib, src, t) {
        forall x: Place, y: Place | DeclaresPair(lib, w, package, name, x) && DeclaresPair(lib, w, package, name, y)
          ensures x == y
        {
          var i := PlacedAt(w, origin, src, x);
          var j := PlacedAt(w, origin, src, y);
          assert i in exact && j in exact;
        }
      }
    }
  }

  /** An injective image is as large. */
  lemma {:induction false} ImageSize(ids: set<Id>, origin: map<Id, Place>)
    requires ids <= origin.Keys && forall i, j :: i in origin && j in origin && origin[i] == origin[j] ==> i == j
    ensures |set id | id in ids :: origin[id]| == |ids|
    decreases |ids|
  {
    if ids != {} {
      var x :| x in ids;
      ImageSize(ids - {x}, origin);
      assert (set id | id in ids :: origin[id]) == (set id | id in ids - {x} :: origin[id]) + {origin[x]};
    }
  }

  lemma HeardInGraph(lib: Lib, w: Files, origin: map<Id, Place>, src: Table, f: Facts, key: string)
    requires Represents(lib, w, origin, src, f)
    ensures |Heard(f, key)| == |HeardPlaces(lib, w, key)|
  {
    hide FactsOf, IsPattern, Subjects.Matches, Placed, Represents, Heard, HeardPlaces;
    assert Heard(f, key) <= origin.Keys
      && (forall i, j :: i in origin && j in origin && origin[i] == origin[j] ==> i == j) by {
      HeardKnown(lib, w, origin, src, f, key);
    }
    ImageSize(Heard(f, key), origin);
    var image := set id | id in Heard(f, key) :: origin[id];
    forall id | id in Heard(f, key) ensures origin[id] in HeardPlaces(lib, w, key) {
      HeardAtPlace(lib, w, origin, src, f, key, id);
    }
    forall h | h in HeardPlaces(lib, w, key) ensures h in image {
      var id := PlaceHeard(lib, w, origin, src, f, key, h);
    }
    assert image == HeardPlaces(lib, w, key);
  }

  lemma PlaceHeard(lib: Lib, w: Files, origin: map<Id, Place>, src: Table, f: Facts, key: string, h: Place)
    returns (id: Id)
    requires Represents(lib, w, origin, src, f) && h in HeardPlaces(lib, w, key)
    ensures id in origin && origin[id] == h && id in Heard(f, key)
  {
    hide FactsOf, IsPattern, Subjects.Matches, FactsLive;
    assert HeardPlace(lib, w, key, h) && HandleOk(w, h);
    var s :| PublishesAt(lib, w, h, s) && !IsPattern(s) && Subjects.Matches(key, s);
    id := PlacedAt(w, origin, src, h);
    RecordedAt(lib, w, h, f, id, s);
    RecordedAt(lib, w, h, f, id, key);
    assert HeardOn(f, key, s, id) && s in f.producers && id in f.producers[s];
  }

  lemma HeardKnown(lib: Lib, w: Files, origin: map<Id, Place>, src: Table, f: Facts, key: string)
    requires Represents(lib, w, origin, src, f)
    ensures Heard(f, key) <= origin.Keys
    ensures forall i, j :: i in origin && j in origin && origin[i] == origin[j] ==> i == j
  {
    hide FactsOf, IsPattern, Subjects.Matches;
    forall id | id in Heard(f, key) ensures id in src {
      var s :| s in f.producers && id in f.producers[s];
      assert id in At(f.producers, s);
    }
  }

  lemma HeardAtPlace(lib: Lib, w: Files, origin: map<Id, Place>, src: Table, f: Facts, key: string, id: Id)
    requires Represents(lib, w, origin, src, f) && id in Heard(f, key)
    ensures id in origin && origin[id] in HeardPlaces(lib, w, key)
  {
    hide FactsOf, IsPattern, Subjects.Matches, FactsLive;
    HeardKnown(lib, w, origin, src, f, key);
    var h := origin[id];
    var s :| s in f.producers && id in f.producers[s] && HeardOn(f, key, s, id) && id !in At(f.producers, key);
    RecordedAt(lib, w, h, f, id, s);
    RecordedAt(lib, w, h, f, id, key);
    assert PublishesAt(lib, w, h, s) && !IsPattern(s) && Subjects.Matches(key, s);
    assert HeardPlace(lib, w, key, h);
  }

  lemma UntruncatedInGraph(lib: Lib, w: Files, src: Table, f: Facts)
    requires Represented(lib, w, src, f) && FactsLive(f, src)
    ensures NothingTruncated(src, f) <==> Untruncated(lib, w)
  {
    hide FactsOf, IsPattern, Heard, Placed, HeardPlaces, FactsLive, WildcardIn, Wildcard, TopicKeys;
    var origin: map<Id, Place> :| Represents(lib, w, origin, src, f);
    forall key ensures WildcardIn(lib, w, key) <==> Wildcard(src, f, key) {
      WildcardInFiles(lib, w, origin, src, f, key);
    }
    forall key ensures |Heard(f, key)| == |HeardPlaces(lib, w, key)| {
      HeardInGraph(lib, w, origin, src, f, key);
    }
    forall key | Wildcard(src, f, key) ensures key in TopicKeys(f) {
      WildcardKey(src, f, key);
    }
  }

  lemma WildcardKey(src: Table, f: Facts, key: string)
    requires Wildcard(src, f, key)
    ensures key in TopicKeys(f)
  {
    hide IsPattern;
  }

  lemma WildcardInFiles(lib: Lib, w: Files, origin: map<Id, Place>, src: Table, f: Facts, key: string)
    requires Represents(lib, w, origin, src, f)
    ensures Wildcard(src, f, key) <==> WildcardIn(lib, w, key)
  {
    hide FactsOf, IsPattern, Placed;
    var ids := At(f.consumers, key);
    if Wildcard(src, f, key) {
      var i :| 0 <= i < |ids| && (ids[i] in src ==> !(src[ids[i]].kind in {KafkaTopic, Queue}));
      assert ids[i] in ids;
      PlacedNode(w, origin, src, ids[i]);
      RecordedAt(lib, w, origin[ids[i]], f, ids[i], key);
    }
    if WildcardIn(lib, w, key) {
      var h: Place :| ListensAt(lib, w, h, key) && !(NodeIn(w, h).kind in {KafkaTopic, Queue});
      var id := PlacedAt(w, origin, src, h);
      RecordedAt(lib, w, h, f, id, key);
      var i :| 0 <= i < |ids| && ids[i] == id;
    }
  }
}
