/** Which edge an import yields, case by case, in terms of the text it is spelled with and of what the nodes declare. */
module ImportCases {
  import opened Text
  import opened GraphModel
  import opened Imports
  import opened ImportMeaning
  import opened ImportPass
  import opened TopicPass
  import opened RpcMeaning
  import opened Reconciled
  import opened Graph
  import opened Capture
  import opened Reload

  // ------------------------------------------------------------------ spelling

  predicate SeparatorAt(t: string, i: int) {
    0 <= i && i + 2 <= |t| && t[i] == ':' && t[i + 1] == ':'
  }

  lemma SliceIsSeparator(t: string, i: nat)
    requires i + 2 <= |t|
    ensures t[i..i + 2] == "::" <==> SeparatorAt(t, i)
  {
    assert t[i..i + 2] == [t[i], t[i + 1]];
  }

  /** The separator found is the last one, and there is one when one is found. */
  lemma {:induction false} LastSeparator(t: string)
    ensures
      var r := LastPathSeparator(t);
      && (r.Some? ==> SeparatorAt(t, r.value))
      && forall i: nat :: SeparatorAt(t, i) ==> r.Some? && i <= r.value
  {
    if |t| >= 2 {
      SliceIsSeparator(t, |t| - 2);
      if t[|t| - 2..] != "::" {
        var init := t[..|t| - 1];
        LastSeparator(init);
        forall i: nat ensures SeparatorAt(t, i) <==> SeparatorAt(init, i) {}
      }
    }
  }

  /** The part before the last dot is the package. */
  lemma SplitsAtDot(p: string, n: string)
    requires p != "" && n != "" && '.' !in n
    requires
      var t := p + "." + n;
      SeparatorAt(t, |t| - 2) || forall i: nat :: SeparatorAt(t, i) ==> i == 0
    ensures SplitQualified(p + "." + n) == Some((p, n))
  {
    RSplitOnceAt(p, '.', n);
    LastSeparator(p + "." + n);
  }

  /** Names joined with `::`. */
  function PathOf(parts: seq<string>): string
    requires parts != []
  {
    if |parts| == 1 then parts[0] else parts[0] + "::" + PathOf(parts[1..])
  }

  lemma {:induction false} DottedPlain(s: string)
    requires ':' !in s
    ensures Dotted(s) == s
  {
    if s != "" {
      assert |s| >= 2 ==> s[..2][0] == s[0];
      DottedPlain(s[1..]);
    }
  }

  lemma {:induction false} DottedAt(a: string, b: string)
    requires ':' !in a
    ensures Dotted(a + "::" + b) == a + "." + Dotted(b)
  {
    var s := a + "::" + b;
    if a == "" {
      assert s[..2] == "::" && s[2..] == b;
    } else {
      assert s[..2][0] == a[0];
      assert s[1..] == a[1..] + "::" + b;
      DottedAt(a[1..], b);
      assert [a[0]] + (a[1..] + "." + Dotted(b)) == a + "." + Dotted(b);
    }
  }

  lemma {:induction false} DottedPath(parts: seq<string>)
    requires parts != [] && forall i :: 0 <= i < |parts| ==> ':' !in parts[i]
    ensures Dotted(PathOf(parts)) == Join(parts, '.')
  {
    hide Dotted;
    if |parts| == 1 {
      DottedPlain(parts[0]);
    } else {
      DottedPath(parts[1..]);
      DottedAt(parts[0], PathOf(parts[1..]));
    }
  }

  /** The package of a `::` path is read with dots. */
  lemma SplitsAtPath(parts: seq<string>, n: string)
    requires parts != [] && (forall i :: 0 <= i < |parts| ==> ':' !in parts[i]) && PathOf(parts) != ""
    requires n != "" && ':' !in n
    ensures SplitQualified(PathOf(parts) + "::" + n) == Some((Join(parts, '.'), n))
  {
    hide Dotted, PathOf, LastPathSeparator;
    var a := PathOf(parts);
    var t := a + "::" + n;
    LastSeparator(t);
    assert SeparatorAt(t, |a|);
    forall i: nat | i > |a| ensures !SeparatorAt(t, i) {
      assert |a| + 2 <= i + 1 < |t| ==> t[i + 1] == n[i - 1 - |a|];
    }
    assert t[..|a|] == a && t[|a| + 2..] == n;
    DottedPath(parts);
  }

  /** Without a dot or a `::`, or with nothing before or after the only dot, there is no package. */
  lemma SplitsNowhere(s: string)
    requires '.' !in s && ':' !in s
    ensures SplitQualified(s).None? && SplitQualified("." + s).None? && SplitQualified(s + ".").None?
  {
    hide RSplitOnce, LastPathSeparator;
    RSplitOnceAt("", '.', s);
    RSplitOnceAt(s, '.', "");
    assert "" + "." + s == "." + s && s + "." + "" == s + ".";
    NoSeparator(s);
    NoSeparator("." + s);
    NoSeparator(s + ".");
  }

  lemma NoSeparator(t: string)
    requires ':' !in t
    ensures LastPathSeparator(t).None? && forall i: nat :: !SeparatorAt(t, i)
  {
    LastSeparator(t);
  }

  /** Relative and absolute paths. */
  lemma PathsStart(t: string)
    ensures IsPath(t) <==> t != "" && (t[0] == '.' || t[0] == '/')
  {
  }

  // ------------------------------------------------------------------ the edges of one import

  /**
   * What `id` imports as `t` is shown as edges to exactly `ids`, of this confidence, unless a lesser text reaches them.
   */
  ghost predicate Shows(edges: seq<Edge>, id: Id, t: string, ids: set<Id>, c: Confidence) {
    && (forall e: Edge :: e in edges && e.kind == EdgeKind.Imports && e.from == id && e.metadata == t ==>
         e.to in ids && e.confidence == c)
    && (forall x :: x in ids ==> ShownBy(edges, id, t, x, c))
  }

  /** The edge to `x` carries the text, or one that sorts before it. */
  ghost predicate ShownBy(edges: seq<Edge>, id: Id, t: string, x: Id, c: Confidence) {
    exists e: Edge :: e in edges && e.kind == EdgeKind.Imports && e.from == id && e.to == x
      && (e == Edge(id, x, EdgeKind.Imports, t, c) || Less(e.metadata, t))
  }

  lemma ShowsOutcome(lib: Lib, pre: Table, nodes: Table, bound: nat, f: Facts, edges: seq<Edge>, id: Id, t: string)
    requires DerivedFrom(lib, pre, nodes, bound, f, edges) && id in At(f.imports, t) && id in pre
    ensures Shows(edges, id, t, Targets(lib, pre, id, t).ids, Targets(lib, pre, id, t).confidence)
  {
    hide Targets, AnyHubEdge, ImplementsEdge, CallEdge, HubsOk, HubsExact, FactsLive, Sources;
    var o := Targets(lib, pre, id, t);
    forall e: Edge | e in edges && e.kind == EdgeKind.Imports && e.from == id && e.metadata == t
      ensures e.to in o.ids && e.confidence == o.confidence
    {
      assert DerivedEdge(lib, pre, nodes, f, e);
      OtherKinds(lib, nodes, f, e);
    }
    forall x | x in o.ids ensures ShownBy(edges, id, t, x, o.confidence) {
      var e := ReachedEdge(lib, pre, f.imports, id, t, x);
      assert DerivedEdge(lib, pre, nodes, f, e);
      LessTotal(e.metadata, t);
    }
  }

  // ------------------------------------------------------------------ candidates

  /** The node is found under the name: its own, or a stream's in lower case. */
  predicate AnswersTo(lib: Lib, n: Node, name: string) {
    n.name == name || (n.kind in {KafkaTopic, EventStream, Queue} && lib.lower(n.name) == name)
  }

  /** It is found twice: a stream whose name is in lower case already. */
  predicate Doubled(lib: Lib, n: Node) {
    n.kind in {KafkaTopic, EventStream, Queue} && lib.lower(n.name) == n.name
  }

  lemma NameCount(lib: Lib, n: Node, name: string)
    ensures Multiplicity(lib, ByName, n, name) > 0 <==> AnswersTo(lib, n, name)
    ensures Multiplicity(lib, ByName, n, name) == 1 <==> AnswersTo(lib, n, name) && !(Doubled(lib, n) && n.name == name)
  {
  }

  /** The nodes `nodes` finds under a name. */
  function Answering(lib: Lib, nodes: Table, name: string): set<Id> {
    set x | x in nodes && AnswersTo(lib, nodes[x], name)
  }

  function AnsweringIn(lib: Lib, nodes: Table, name: string, repo: nat): set<Id> {
    set x | x in nodes && AnswersTo(lib, nodes[x], name) && nodes[x].repo == repo
  }

  lemma AnsweringListed(lib: Lib, nodes: Table, name: string, repo: nat)
    ensures Listing(lib, ByName, nodes, name) == Answering(lib, nodes, name)
    ensures Listing(lib, ByName, InRepo(nodes, repo), name) == AnsweringIn(lib, nodes, name, repo)
  {
    hide Multiplicity, AnswersTo, Doubled;
    forall x | x in nodes { NameCount(lib, nodes[x], name); }
  }

  /**
   * The first node that carries the name in the package is where the import leads, alone and exactly; with one such
   * node, to that node. Nothing else declared anywhere matters.
   */
  lemma PairImport(lib: Lib, pre: Table, nodes: Table, bound: nat, f: Facts, edges: seq<Edge>, id: Id, t: string,
                   p: string, n: string, x: Id)
    requires DerivedFrom(lib, pre, nodes, bound, f, edges) && id in At(f.imports, t) && id in pre
    requires !IsPath(t) && SplitQualified(t) == Some((p, n))
    requires x in pre && pre[x].package == p && AnswersTo(lib, pre[x], n)
    requires forall y :: y in pre && pre[y].package == p && AnswersTo(lib, pre[y], n) ==> x <= y
    ensures Shows(edges, id, t, {x}, Exact)
  {
    hide SplitQualified, AnswersTo, Multiplicity, Bare, DerivedFrom, Shows;
    ShowsOutcome(lib, pre, nodes, bound, f, edges, id, t);
    forall y | y in pre { NameCount(lib, pre[y], n); }
    var exact := Listing(lib, ByName, InPackage(pre, p), n);
    assert x in exact && IsLeast(x, exact);
    assert (set y | y in exact && IsLeast(y, exact)) == {x};
  }

  /** `a.b.C`: the package is everything before the last dot. */
  lemma DottedImport(lib: Lib, pre: Table, nodes: Table, bound: nat, f: Facts, edges: seq<Edge>, id: Id,
                     p: string, n: string, x: Id)
    requires DerivedFrom(lib, pre, nodes, bound, f, edges) && id in At(f.imports, p + "." + n) && id in pre
    requires p != "" && n != "" && '.' !in n && ':' !in p && ':' !in n && p[0] != '.' && p[0] != '/'
    requires x in pre && pre[x].package == p && pre[x].name == n
    requires forall y :: y in pre && pre[y].package == p && AnswersTo(lib, pre[y], n) ==> y == x
    ensures Shows(edges, id, p + "." + n, {x}, Exact)
  {
    hide DerivedFrom, Shows, SplitQualified;
    var t := p + "." + n;
    assert ':' !in t;
    NoSeparator(t);
    SplitsAtDot(p, n);
    assert t[0] == p[0];
    PairImport(lib, pre, nodes, bound, f, edges, id, t, p, n, x);
  }

  /** `a::b::C`: the package is the path before the last `::`, read with dots. */
  lemma PathImport(lib: Lib, pre: Table, nodes: Table, bound: nat, f: Facts, edges: seq<Edge>, id: Id,
                   parts: seq<string>, n: string, x: Id)
    requires parts != [] && (forall i :: 0 <= i < |parts| ==> ':' !in parts[i]) && PathOf(parts) != ""
    requires DerivedFrom(lib, pre, nodes, bound, f, edges) && id in At(f.imports, PathOf(parts) + "::" + n) && id in pre
    requires n != "" && ':' !in n && PathOf(parts)[0] != '.' && PathOf(parts)[0] != '/'
    requires x in pre && pre[x].package == Join(parts, '.') && pre[x].name == n
    requires forall y :: y in pre && pre[y].package == Join(parts, '.') && AnswersTo(lib, pre[y], n) ==> y == x
    ensures Shows(edges, id, PathOf(parts) + "::" + n, {x}, Exact)
  {
    hide DerivedFrom, Shows, SplitQualified, PathOf, Join;
    SplitsAtPath(parts, n);
    assert (PathOf(parts) + "::" + n)[0] == PathOf(parts)[0];
    PairImport(lib, pre, nodes, bound, f, edges, id, PathOf(parts) + "::" + n, Join(parts, '.'), n, x);
  }

  // ------------------------------------------------------------------ bare names

  /** A name without package, path or builtin meaning leads to the nodes found under it. */
  ghost predicate BareImport(f: Facts, pre: Table, id: Id, t: string) {
    && id in At(f.imports, t) && id in pre
    && '.' !in t && ':' !in t && '/' !in t && t !in BUILTINS
  }

  lemma BareOutcome(lib: Lib, pre: Table, f: Facts, id: Id, t: string)
    requires BareImport(f, pre, id, t) && Answering(lib, pre, t) != {}
    ensures Targets(lib, pre, id, t) == Choose(lib, ByName, pre, t, pre[id].repo, Heuristic)
  {
    hide Choose, Qualified, SplitQualified, AnswersTo, BUILTINS, Multiplicity;
    SplitsNowhere(t);
    SplitWhole(t, '/');
    assert "node:"[4] == ':';
    assert forall k :: 0 <= k < |t| ==> t[k] != ':';
    assert !IsPath(t);
    AnsweringListed(lib, pre, t, pre[id].repo);
  }

  /** One node found under the name, and found once, is the target, whatever its repository. */
  lemma LoneImport(lib: Lib, pre: Table, nodes: Table, bound: nat, f: Facts, edges: seq<Edge>, id: Id, t: string, x: Id)
    requires DerivedFrom(lib, pre, nodes, bound, f, edges) && BareImport(f, pre, id, t)
    requires Answering(lib, pre, t) == {x} && !(Doubled(lib, pre[x]) && pre[x].name == t)
    ensures Shows(edges, id, t, {x}, Heuristic)
  {
    hide DerivedFrom, Shows, AnswersTo, Doubled, Multiplicity, Targets, AnsweringIn;
    BareTargets(lib, pre, nodes, bound, f, edges, id, t);
    assert x in Answering(lib, pre, t);
    NameCount(lib, pre[x], t);
    assert Lone(lib, ByName, pre, t);
  }

  lemma BareTargets(lib: Lib, pre: Table, nodes: Table, bound: nat, f: Facts, edges: seq<Edge>, id: Id, t: string)
    requires DerivedFrom(lib, pre, nodes, bound, f, edges) && BareImport(f, pre, id, t) && Answering(lib, pre, t) != {}
    ensures
      var o := Choose(lib, ByName, pre, t, pre[id].repo, Heuristic);
      Shows(edges, id, t, o.ids, o.confidence)
    ensures Listing(lib, ByName, pre, t) == Answering(lib, pre, t)
    ensures Listing(lib, ByName, InRepo(pre, pre[id].repo), t) == AnsweringIn(lib, pre, t, pre[id].repo)
  {
    hide DerivedFrom, Shows, AnswersTo, Choose, Targets, Listing;
    BareOutcome(lib, pre, f, id, t);
    ShowsOutcome(lib, pre, nodes, bound, f, edges, id, t);
    AnsweringListed(lib, pre, t, pre[id].repo);
  }

  /** Of several, the only one of the importer's repository is the target. */
  lemma OwnImport(lib: Lib, pre: Table, nodes: Table, bound: nat, f: Facts, edges: seq<Edge>, id: Id, t: string, x: Id)
    requires DerivedFrom(lib, pre, nodes, bound, f, edges) && BareImport(f, pre, id, t)
    requires AnsweringIn(lib, pre, t, pre[id].repo) == {x} && !(Doubled(lib, pre[x]) && pre[x].name == t)
    ensures Shows(edges, id, t, {x}, Heuristic)
  {
    hide DerivedFrom, Shows, AnswersTo, Doubled, Multiplicity, Targets;
    assert x in AnsweringIn(lib, pre, t, pre[id].repo);
    assert x in Answering(lib, pre, t);
    BareTargets(lib, pre, nodes, bound, f, edges, id, t);
    NameCount(lib, pre[x], t);
    assert Lone(lib, ByName, InRepo(pre, pre[id].repo), t);
    assert Lone(lib, ByName, pre, t) ==> Listing(lib, ByName, pre, t) == {x};
  }

  /** Several in the importer's repository are all shown, as ambiguous, and nothing of other repositories is. */
  lemma TiedImport(lib: Lib, pre: Table, nodes: Table, bound: nat, f: Facts, edges: seq<Edge>, id: Id, t: string)
    requires DerivedFrom(lib, pre, nodes, bound, f, edges) && BareImport(f, pre, id, t)
    requires |AnsweringIn(lib, pre, t, pre[id].repo)| > 1
    ensures Shows(edges, id, t, AnsweringIn(lib, pre, t, pre[id].repo), Ambiguous)
  {
    hide DerivedFrom, Shows, AnswersTo, Doubled, Multiplicity, Targets;
    var own := AnsweringIn(lib, pre, t, pre[id].repo);
    assert own <= Answering(lib, pre, t);
    var a :| a in own;
    BareTargets(lib, pre, nodes, bound, f, edges, id, t);
    NotLone(own);
    SubsetSize(own, Answering(lib, pre, t));
    NotLone(Answering(lib, pre, t));
  }

  lemma NotLone(s: set<Id>)
    requires |s| > 1
    ensures forall x :: s != {x}
  {
  }

  /** None there but several elsewhere are all shown, as ambiguous. */
  lemma ElsewhereImport(lib: Lib, pre: Table, nodes: Table, bound: nat, f: Facts, edges: seq<Edge>, id: Id, t: string)
    requires DerivedFrom(lib, pre, nodes, bound, f, edges) && BareImport(f, pre, id, t)
    requires AnsweringIn(lib, pre, t, pre[id].repo) == {} && |Answering(lib, pre, t)| > 1
    ensures Shows(edges, id, t, Answering(lib, pre, t), Ambiguous)
  {
    hide DerivedFrom, Shows, AnswersTo, Doubled, Multiplicity, Targets;
    BareTargets(lib, pre, nodes, bound, f, edges, id, t);
    NotLone(Answering(lib, pre, t));
    var own := InRepo(pre, pre[id].repo);
    forall x | x in own ensures x !in Listing(lib, ByName, own, t) {}
  }

  // ------------------------------------------------------------------ the other strategies

  /** `package/Name`: when no node carries the name in the package, the text `p/n` itself is looked up, exactly. */
  lemma SlashedImport(lib: Lib, pre: Table, nodes: Table, bound: nat, f: Facts, edges: seq<Edge>, id: Id, t: string,
                      p: string, n: string, x: Id)
    requires DerivedFrom(lib, pre, nodes, bound, f, edges) && id in At(f.imports, t) && id in pre
    requires !IsPath(t) && SplitQualified(t) == Some((p, n))
    requires forall y :: y in pre && pre[y].package == p ==> !AnswersTo(lib, pre[y], n)
    requires x in pre && pre[x].package != "" && pre[x].package + "/" + pre[x].name == p + "/" + n
    requires forall y :: y in pre && pre[y].package + "/" + pre[y].name == p + "/" + n ==> y == x
    ensures Shows(edges, id, t, {x}, Exact)
  {
    hide SplitQualified, AnswersTo, Bare, DerivedFrom, Shows;
    ShowsOutcome(lib, pre, nodes, bound, f, edges, id, t);
    forall y | y in pre { NameCount(lib, pre[y], n); }
    assert Listing(lib, ByName, InPackage(pre, p), n) == {};
    assert Listing(lib, ByFqcn, pre, p + "/" + n) == {x};
    assert Lone(lib, ByFqcn, pre, p + "/" + n);
  }

  /**
   * A Node.js builtin, bare, with a subpath or with the `node:` prefix, never leads out of the importer's repository.
   */
  lemma BuiltinImport(lib: Lib, pre: Table, nodes: Table, bound: nat, f: Facts, edges: seq<Edge>, id: Id, t: string,
                      b: string, rest: string)
    requires DerivedFrom(lib, pre, nodes, bound, f, edges) && id in At(f.imports, t) && id in pre
    requires !IsPath(t) && SplitQualified(t).None?
    requires t == "node:" + rest || (b in BUILTINS && '/' !in b && (t == b || t == b + "/" + rest))
    ensures forall e: Edge :: e in edges && e.kind == EdgeKind.Imports && e.from == id && e.metadata == t ==>
      e.to in AnsweringIn(lib, pre, t, pre[id].repo)
    ensures forall x :: x in AnsweringIn(lib, pre, t, pre[id].repo) ==>
      exists e: Edge :: e in edges && e.kind == EdgeKind.Imports && e.from == id && e.to == x && !Less(t, e.metadata)
  {
    hide SplitQualified, AnswersTo, DerivedFrom, BUILTINS, Qualified, Multiplicity, Split;
    var own := AnsweringIn(lib, pre, t, pre[id].repo);
    IsBuiltinText(t, b, rest);
    AnsweringListed(lib, pre, t, pre[id].repo);
    ShowsOutcome(lib, pre, nodes, bound, f, edges, id, t);
    assert Targets(lib, pre, id, t).ids == own;
    forall x | x in own
      ensures exists e: Edge ::
        e in edges && e.kind == EdgeKind.Imports && e.from == id && e.to == x && !Less(t, e.metadata)
    {
      assert ShownBy(edges, id, t, x, Targets(lib, pre, id, t).confidence);
      var e: Edge :| e in edges && e.kind == EdgeKind.Imports && e.from == id && e.to == x
        && (e == Edge(id, x, EdgeKind.Imports, t, Targets(lib, pre, id, t).confidence) || Less(e.metadata, t));
      LessTotal(e.metadata, t);
    }
  }

  lemma IsBuiltinText(t: string, b: string, rest: string)
    requires t == "node:" + rest || (b in BUILTINS && '/' !in b && (t == b || t == b + "/" + rest))
    ensures IsBuiltin(t)
  {
    hide BUILTINS;
    if b in BUILTINS && '/' !in b && t == b {
      SplitWhole(b, '/');
    } else if b in BUILTINS && '/' !in b && t == b + "/" + rest {
      SplitHead(b, '/', rest);
    }
  }

  /** Builtin modules whose names are common among symbols. */
  lemma BuiltinModules()
    ensures IsBuiltin("fs") && IsBuiltin("path") && IsBuiltin("events") && IsBuiltin("constants")
  {
    hide Split;
    SplitWhole("fs", '/');
    SplitWhole("path", '/');
    SplitWhole("events", '/');
    SplitWhole("constants", '/');
  }

  /**
   * A relative import whose text no node answers to leads to the nodes of the importer's repository that answer to its
   * stem and, when the importer is a script with a directory, are declared in the file it names. Nothing else is shown.
   */
  lemma RelativeImport(lib: Lib, pre: Table, nodes: Table, bound: nat, f: Facts, edges: seq<Edge>, id: Id, t: string)
    requires DerivedFrom(lib, pre, nodes, bound, f, edges) && id in At(f.imports, t) && id in pre
    requires IsPath(t) && !IsBuiltin(t) && Answering(lib, pre, t) == {}
    ensures
      var dir := if t[0] == '.' && lib.isScript(pre[id].file) then lib.parent(pre[id].file) else None;
      var found := StemIn(lib, pre, t, pre[id].repo, dir);
      && Shows(edges, id, t, found, Targets(lib, pre, id, t).confidence)
      && (|found| > 1 ==> Targets(lib, pre, id, t).confidence == Ambiguous)
      && forall x :: found == {x} && !(Doubled(lib, pre[x]) && pre[x].name == lib.stem(t)) ==>
        Targets(lib, pre, id, t).confidence == Heuristic
  {
    hide SplitQualified, AnswersTo, DerivedFrom, Qualified, Multiplicity, IsBuiltin, Shows, Doubled;
    ShowsOutcome(lib, pre, nodes, bound, f, edges, id, t);
    var repo, dir := pre[id].repo, ImporterDir(lib, pre[id], t);
    AnsweringListed(lib, pre, t, repo);
    var own := InTarget(lib, InRepo(pre, repo), dir, t);
    AnsweringListed(lib, own, lib.stem(t), repo);
    var found := StemIn(lib, pre, t, repo, dir);
    assert Answering(lib, own, lib.stem(t)) == found;
    assert Targets(lib, pre, id, t) == Own(lib, own, lib.stem(t));
    if |found| > 1 {
      NotLone(found);
    }
    forall x | found == {x} && !(Doubled(lib, pre[x]) && pre[x].name == lib.stem(t))
      ensures Lone(lib, ByName, own, lib.stem(t))
    {
      assert x in found;
      NameCount(lib, own[x], lib.stem(t));
    }
  }

  /** The nodes of the repository that answer to the stem and are declared where the import points. */
  function StemIn(lib: Lib, nodes: Table, t: string, repo: nat, dir: Option<string>): set<Id> {
    set x | x in nodes && AnswersTo(lib, nodes[x], lib.stem(t)) && nodes[x].repo == repo
            && (dir.Some? ==> NamedBy(lib, nodes[x].file, dir.value, t))
  }

  /** A qualified text that names no node but a whole package leads to a node of that package. */
  lemma PackageImport(lib: Lib, pre: Table, nodes: Table, bound: nat, f: Facts, edges: seq<Edge>, id: Id, t: string,
                      x: Id)
    requires DerivedFrom(lib, pre, nodes, bound, f, edges) && id in At(f.imports, t) && id in pre
    requires !IsPath(t) && !IsBuiltin(t) && ('/' in t || '.' in t) && Answering(lib, pre, t) == {}
    requires SplitQualified(t).Some? ==>
      var (p, n) := SplitQualified(t).value;
      forall y :: y in pre ==>
        !(pre[y].package == p && AnswersTo(lib, pre[y], n)) && pre[y].package + "/" + pre[y].name != p + "/" + n
    requires x in pre && pre[x].package == t && forall y :: y in pre && pre[y].package == t ==> y == x
    ensures Shows(edges, id, t, {x}, Heuristic)
  {
    hide SplitQualified, AnswersTo, DerivedFrom, IsBuiltin, Shows;
    ShowsOutcome(lib, pre, nodes, bound, f, edges, id, t);
    AnsweringListed(lib, pre, t, pre[id].repo);
    if SplitQualified(t).Some? {
      var (p, n) := SplitQualified(t).value;
      forall y | y in pre { NameCount(lib, pre[y], n); }
      assert Listing(lib, ByName, InPackage(pre, p), n) == {};
      assert Listing(lib, ByFqcn, pre, p + "/" + n) == {};
    }
    assert Listing(lib, ByPackage, pre, t) == {x};
    assert Lone(lib, ByPackage, pre, t);
  }

  /** An import that names nothing shows nothing. */
  lemma UnknownImport(lib: Lib, pre: Table, nodes: Table, bound: nat, f: Facts, edges: seq<Edge>, id: Id, t: string)
    requires DerivedFrom(lib, pre, nodes, bound, f, edges) && BareImport(f, pre, id, t) && Answering(lib, pre, t) == {}
    ensures Shows(edges, id, t, {}, Heuristic)
  {
    hide DerivedFrom, Shows, AnswersTo, Qualified, SplitQualified, BUILTINS, Multiplicity, Choose;
    ShowsOutcome(lib, pre, nodes, bound, f, edges, id, t);
    SplitsNowhere(t);
    SplitWhole(t, '/');
    assert "node:"[4] == ':';
    assert forall k :: 0 <= k < |t| ==> t[k] != ':';
    AnsweringListed(lib, pre, t, pre[id].repo);
  }
}
