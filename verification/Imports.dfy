/** Resolution of one import fact: the indexed and memoised code, and what it means on the node table. */
module Imports {
  import opened Text
  import opened GraphModel

  /** Candidates of one resolution. They all carry the same confidence. */
  datatype Resolution = Resolution(ids: seq<Id>, confidence: Confidence)

  /** The graph as resolution reads it. */
  datatype Lookup = Lookup(lib: Lib, nodes: Table, names: Buckets, packages: Buckets, fqcns: Buckets) {
    ghost predicate Ok(bound: nat) {
      && Below(nodes, bound)
      && Coherent(lib, ByName, nodes, bound, names)
      && Coherent(lib, ByPackage, nodes, bound, packages)
      && Coherent(lib, ByFqcn, nodes, bound, fqcns)
    }
  }

  // ------------------------------------------------------------------ strings

  /** Index of the last `::`, if any. */
  function LastPathSeparator(t: string): (r: Option<nat>)
    ensures r.Some? ==> r.value + 2 <= |t| && t[r.value..r.value + 2] == "::"
  {
    if |t| < 2 then None
    else if t[|t| - 2..] == "::" then Some(|t| - 2)
    else
      var r := LastPathSeparator(t[..|t| - 1]);
      assert r.Some? ==> t[r.value..r.value + 2] == t[..|t| - 1][r.value..r.value + 2];
      r
  }

  /** `s.replace("::", ".")`. */
  function Dotted(s: string): string {
    if |s| >= 2 && s[..2] == "::" then "." + Dotted(s[2..])
    else if s == "" then ""
    else [s[0]] + Dotted(s[1..])
  }

  /** `(package, bare name)` of a Rust or Java style qualified identifier. */
  function SplitQualified(t: string): Option<(string, string)> {
    var i := LastPathSeparator(t);
    if i.Some? && i.value > 0 && i.value + 2 < |t| then Some((Dotted(t[..i.value]), t[i.value + 2..]))
    else
      match RSplitOnce(t, '.')
      case Some((p, n)) => if p != "" && n != "" then Some((p, n)) else None
      case None => None
  }

  predicate IsPath(t: string) {
    "." <= t || "/" <= t
  }

  const BUILTINS: set<string> := {
    "assert", "async_hooks", "buffer", "child_process", "cluster", "console", "constants", "crypto", "dgram",
    "diagnostics_channel", "dns", "domain", "events", "fs", "http", "http2", "https", "inspector", "module", "net",
    "os", "path", "perf_hooks", "process", "punycode", "querystring", "readline", "repl", "stream",
    "string_decoder", "timers", "tls", "trace_events", "tty", "url", "util", "v8", "vm", "wasi", "worker_threads",
    "zlib" }

  predicate IsBuiltin(t: string) {
    "node:" <= t || Split(t, '/')[0] in BUILTINS
  }

  // ------------------------------------------------------------------ direct resolution

  /** The ids declared in `repo`, in list order. */
  function SameRepo(nodes: Table, ids: seq<Id>, repo: nat): seq<Id> {
    if ids == [] then []
    else
      var last := ids[|ids| - 1];
      SameRepo(nodes, ids[..|ids| - 1], repo) + if last in nodes && nodes[last].repo == repo then [last] else []
  }

  function PickOrAmbiguous(nodes: Table, ids: seq<Id>, repo: nat, confidence: Confidence): Resolution {
    if |ids| == 1 then Resolution(ids, confidence)
    else
      var same := SameRepo(nodes, ids, repo);
      if |same| == 1 then Resolution(same, confidence)
      else if same == [] then Resolution(ids, Ambiguous)
      else Resolution(same, Ambiguous)
  }

  /** The first listed id declared in `package`. */
  function FirstInPackage(nodes: Table, ids: seq<Id>, package: string): Option<Id> {
    if ids == [] then None
    else
      match FirstInPackage(nodes, ids[..|ids| - 1], package)
      case Some(id) => Some(id)
      case None =>
        var last := ids[|ids| - 1];
        if last in nodes && nodes[last].package == package then Some(last) else None
  }

  /** Whether a declaration in `file` is what specifier `t`, imported from `dir`, names. */
  predicate NamedBy(lib: Lib, file: string, dir: string, t: string) {
    lib.moduleKeyMatches(lib.moduleKey(file), lib.moduleKey(lib.join(dir, t))) && lib.extensionCompatible(file, t)
  }

  function InTargetFile(lib: Lib, nodes: Table, ids: seq<Id>, dir: string, t: string): seq<Id> {
    if ids == [] then []
    else
      var last := ids[|ids| - 1];
      InTargetFile(lib, nodes, ids[..|ids| - 1], dir, t)
      + if last in nodes && NamedBy(lib, nodes[last].file, dir, t) then [last] else []
  }

  /** Candidates of the relative-import strategy. */
  function StemCandidates(g: Lookup, repo: nat, dir: Option<string>, t: string): seq<Id> {
    var same := SameRepo(g.nodes, At(g.names, g.lib.stem(t)), repo);
    match dir
    case Some(d) => InTargetFile(g.lib, g.nodes, same, d, t)
    case None => same
  }

  const Unresolved := Resolution([], Heuristic)

  /** The fully-qualified strategy; nothing when it does not apply. */
  function ResolveQualified(g: Lookup, repo: nat, package: string, name: string): Option<Resolution> {
    match FirstInPackage(g.nodes, At(g.names, name), package)
    case Some(id) => Some(Resolution([id], Exact))
    case None =>
      var key := package + "/" + name;
      if key in g.fqcns then Some(PickOrAmbiguous(g.nodes, g.fqcns[key], repo, Exact)) else None
  }

  /** The strategies after the fully-qualified one. */
  function ResolveBare(g: Lookup, repo: nat, dir: Option<string>, t: string): Resolution {
    if IsBuiltin(t) then
      var same := SameRepo(g.nodes, At(g.names, t), repo);
      if same == [] then Unresolved else PickOrAmbiguous(g.nodes, same, repo, Heuristic)
    else if t in g.names then PickOrAmbiguous(g.nodes, g.names[t], repo, Heuristic)
    else if IsPath(t) then
      var candidates := StemCandidates(g, repo, dir, t);
      if candidates == [] then Unresolved else PickOrAmbiguous(g.nodes, candidates, repo, Heuristic)
    else if ('/' in t || '.' in t) && t in g.packages then PickOrAmbiguous(g.nodes, g.packages[t], repo, Heuristic)
    else Unresolved
  }

  /** One import fact resolved by rescanning the buckets. */
  function Resolve(g: Lookup, repo: nat, dir: Option<string>, t: string): Resolution {
    var qualified :=
      if IsPath(t) then None
      else
        match SplitQualified(t)
        case Some((package, name)) => ResolveQualified(g, repo, package, name)
        case None => None;
    match qualified
    case Some(r) => r
    case None => ResolveBare(g, repo, dir, t)
  }

  // ------------------------------------------------------------------ memoised resolution

  datatype Memo = Memo(
    firstByPackage: map<string, map<string, Id>>,
    sameRepoByStem: map<(string, nat), seq<Id>>,
    nodeKeys: map<Id, string>)
  {
    /** Every remembered value is what rescanning the bucket would give. */
    ghost predicate Ok(g: Lookup) {
      && (forall b :: b in firstByPackage ==> IsFirstMap(g.nodes, At(g.names, b), firstByPackage[b]))
      && (forall key :: key in sameRepoByStem ==> sameRepoByStem[key] == SameRepo(g.nodes, At(g.names, key.0), key.1))
      && (forall id :: id in nodeKeys ==> id in g.nodes && nodeKeys[id] == g.lib.moduleKey(g.nodes[id].file))
    }
  }

  ghost predicate IsFirstMap(nodes: Table, ids: seq<Id>, first: map<string, Id>) {
    forall p :: FirstInPackage(nodes, ids, p) == if p in first then Some(first[p]) else None
  }

  method FirstMap(nodes: Table, ids: seq<Id>) returns (first: map<string, Id>)
    ensures IsFirstMap(nodes, ids, first)
  {
    first := map[];
    for i := 0 to |ids|
      invariant IsFirstMap(nodes, ids[..i], first)
    {
      assert ids[..i + 1][..i] == ids[..i];
      if ids[i] in nodes && nodes[ids[i]].package !in first {
        first := first[nodes[ids[i]].package := ids[i]];
      }
    }
    assert ids[..|ids|] == ids;
  }

  /** The same-repo candidates whose file the specifier names, remembering each node's module key. */
  method FilterTargetFile(g: Lookup, ids: seq<Id>, dir: string, t: string, memo: Memo)
    returns (r: seq<Id>, memo': Memo)
    requires memo.Ok(g)
    ensures r == InTargetFile(g.lib, g.nodes, ids, dir, t)
    ensures memo'.Ok(g)
  {
    var target := g.lib.moduleKey(g.lib.join(dir, t));
    r, memo' := [], memo;
    for i := 0 to |ids|
      invariant memo'.Ok(g)
      invariant r == InTargetFile(g.lib, g.nodes, ids[..i], dir, t)
    {
      assert ids[..i + 1][..i] == ids[..i];
      var id := ids[i];
      if id in g.nodes {
        if id !in memo'.nodeKeys {
          memo' := memo'.(nodeKeys := memo'.nodeKeys[id := g.lib.moduleKey(g.nodes[id].file)]);
        }
        if g.lib.moduleKeyMatches(memo'.nodeKeys[id], target) && g.lib.extensionCompatible(g.nodes[id].file, t) {
          r := r + [id];
        }
      }
    }
    assert ids[..|ids|] == ids;
  }

  method MemoFirst(g: Lookup, package: string, name: string, memo: Memo) returns (first: Option<Id>, memo': Memo)
    requires memo.Ok(g)
    ensures first == FirstInPackage(g.nodes, At(g.names, name), package)
    ensures memo'.Ok(g)
  {
    memo' := memo;
    if name !in g.names {
      return None, memo;
    }
    if name !in memo.firstByPackage {
      var built := FirstMap(g.nodes, g.names[name]);
      memo' := memo.(firstByPackage := memo.firstByPackage[name := built]);
    }
    var byPackage := memo'.firstByPackage[name];
    assert IsFirstMap(g.nodes, At(g.names, name), byPackage);
    first := if package in byPackage then Some(byPackage[package]) else None;
  }

  method MemoStem(g: Lookup, repo: nat, dir: Option<string>, t: string, memo: Memo)
    returns (candidates: seq<Id>, memo': Memo)
    requires memo.Ok(g)
    ensures candidates == StemCandidates(g, repo, dir, t)
    ensures memo'.Ok(g)
  {
    memo' := memo;
    var stem := g.lib.stem(t);
    if stem !in g.names {
      return [], memo;
    }
    if (stem, repo) !in memo.sameRepoByStem {
      memo' := memo.(sameRepoByStem := memo.sameRepoByStem[(stem, repo) := SameRepo(g.nodes, g.names[stem], repo)]);
    }
    candidates := memo'.sameRepoByStem[(stem, repo)];
    assert candidates == SameRepo(g.nodes, At(g.names, stem), repo);
    if dir.Some? {
      candidates, memo' := FilterTargetFile(g, candidates, dir.value, t, memo');
    }
  }

  /** The memoised resolution returns what rescanning would. */
  method ResolveMemoised(g: Lookup, repo: nat, dir: Option<string>, t: string, memo: Memo)
    returns (r: Resolution, memo': Memo)
    requires memo.Ok(g)
    ensures r == Resolve(g, repo, dir, t)
    ensures memo'.Ok(g)
  {
    hide Memo.Ok, FirstInPackage, StemCandidates, PickOrAmbiguous, BUILTINS, Split, LastPathSeparator, RSplitOnce;
    memo' := memo;
    var isPath := IsPath(t);
    if !isPath {
      match SplitQualified(t)
      case Some((package, name)) =>
        var first: Option<Id>;
        first, memo' := MemoFirst(g, package, name, memo);
        if first.Some? {
          return Resolution([first.value], Exact), memo';
        }
        var key := package + "/" + name;
        if key in g.fqcns {
          return PickOrAmbiguous(g.nodes, g.fqcns[key], repo, Exact), memo';
        }
      case None =>
    }
    if IsBuiltin(t) {
      if t !in g.names {
        return Unresolved, memo';
      }
      var same := SameRepo(g.nodes, g.names[t], repo);
      if same == [] {
        return Unresolved, memo';
      }
      return PickOrAmbiguous(g.nodes, same, repo, Heuristic), memo';
    }
    if t in g.names {
      return PickOrAmbiguous(g.nodes, g.names[t], repo, Heuristic), memo';
    }
    var isQualified := '/' in t || '.' in t;
    if isPath {
      var candidates: seq<Id>;
      candidates, memo' := MemoStem(g, repo, dir, t, memo');
      if candidates != [] {
        return PickOrAmbiguous(g.nodes, candidates, repo, Heuristic), memo';
      }
    }
    if isQualified && !isPath {
      if t in g.packages {
        return PickOrAmbiguous(g.nodes, g.packages[t], repo, Heuristic), memo';
      }
    }
    return Unresolved, memo';
  }
}
