/** The values of the contract graph, and what each attribute index must hold for a node table. */
module GraphModel {
  import opened Text
  import opened Seqs

  type Id = nat

  datatype NodeKind =
    | GrpcService | GrpcMethod | HttpEndpoint | KafkaTopic | EventStream | Queue
    | ProtoMessage | PostProcessor | Saga | ServiceClass | Interface | Module

  datatype EdgeKind = Produces | Consumes | CallsRpc | Implements | Imports | DispatchesTo

  datatype Confidence = Exact | Heuristic | Ambiguous

  /** A declaration. Its id is its key in the node table. */
  datatype Node = Node(
    name: string, kind: NodeKind, file: string, lineStart: nat, lineEnd: nat,
    package: string, repo: nat, signature: Option<string>, docstring: Option<string>)

  datatype Edge = Edge(from: Id, to: Id, kind: EdgeKind, metadata: string, confidence: Confidence)

  type Table = map<Id, Node>
  type Buckets = map<string, seq<Id>>

  /** The raw facts recorded while folding files: every edge is derived from these. */
  datatype Facts = Facts(
    imports: Buckets, producers: Buckets, consumers: Buckets,
    calls: seq<(Id, string)>, heuristic: set<Id>)

  /**
   * Library behaviour the model leaves uninterpreted: Unicode case mapping and trimming,
   * `std::path`, path cleaning, and the naming conventions of script modules.
   */
  datatype Lib = Lib(
    lower: string -> string,
    alphanumeric: char -> bool,
    trim: string -> string,
    pascal: string -> string,
    topicKey: string -> string,
    stem: string -> string,
    parent: string -> Option<string>,
    isScript: string -> bool,
    isProto: string -> bool,
    join: (string, string) -> string,
    moduleKey: string -> string,
    moduleKeyMatches: (string, string) -> bool,
    extensionCompatible: (string, string) -> bool)

  /** `RepoId::MAX`: the root of a synthetic topic hub. */
  const NO_REPO: nat := 65535
  const BUS := "event-bus"

  predicate StreamLike(kind: NodeKind) {
    kind.KafkaTopic? || kind.EventStream? || kind.Queue?
  }

  predicate Grpc(kind: NodeKind) {
    kind.GrpcMethod? || kind.GrpcService?
  }

  /** The synthetic hub `reconcile_edges` creates for a topic key. */
  function Hub(key: string): Node {
    Node(key, EventStream, BUS, 1, 1, BUS, NO_REPO, Some("topic://" + key), None)
  }

  /** The indices keyed by a node attribute. */
  datatype Attribute = ByName | ByPackage | ByFqcn | ByFile

  /** How often a node is listed under `key`: a stream already in lower case is listed twice by name. */
  function Multiplicity(lib: Lib, a: Attribute, n: Node, key: string): nat {
    match a
    case ByName => (if n.name == key then 1 else 0) + (if StreamLike(n.kind) && lib.lower(n.name) == key then 1 else 0)
    case ByPackage => if n.package != "" && n.package == key then 1 else 0
    case ByFqcn => if (Grpc(n.kind) || n.package != "") && n.package + "/" + n.name == key then 1 else 0
    case ByFile => if n.file == key then 1 else 0
  }

  function Repeat(id: Id, times: nat): (r: seq<Id>)
    ensures |r| == times
    ensures forall i :: 0 <= i < times ==> r[i] == id
  {
    if times == 0 then [] else Repeat(id, times - 1) + [id]
  }

  /** The bucket of `key` recomputed from the node table: ids below `bound`, ascending, with multiplicity. */
  function Bucket(lib: Lib, a: Attribute, key: string, nodes: Table, bound: nat): seq<Id> {
    if bound == 0 then []
    else
      Bucket(lib, a, key, nodes, bound - 1) + Entries(lib, a, key, nodes, bound - 1)
  }

  /** One node's entries in the bucket of `key`. */
  function Entries(lib: Lib, a: Attribute, key: string, nodes: Table, id: Id): seq<Id> {
    if id in nodes then Repeat(id, Multiplicity(lib, a, nodes[id], key)) else []
  }

  /** A bucket, or nothing when the key is absent. */
  function At(index: Buckets, key: string): seq<Id> {
    if key in index then index[key] else []
  }

  ghost predicate NoEmptyBucket(index: Buckets) {
    forall key :: key in index ==> index[key] != []
  }

  /** `index` is exactly the one recomputed from the node table. */
  ghost predicate Coherent(lib: Lib, a: Attribute, nodes: Table, bound: nat, index: Buckets) {
    && NoEmptyBucket(index)
    && forall key :: At(index, key) == Bucket(lib, a, key, nodes, bound)
  }

  ghost predicate Below(nodes: Table, bound: nat) {
    forall id :: id in nodes ==> id < bound
  }

  lemma BucketStep(lib: Lib, a: Attribute, key: string, nodes: Table, bound: nat)
    requires bound > 0
    ensures Bucket(lib, a, key, nodes, bound)
      == Bucket(lib, a, key, nodes, bound - 1) + Entries(lib, a, key, nodes, bound - 1)
  {
  }

  lemma {:induction false} BucketMember(lib: Lib, a: Attribute, key: string, nodes: Table, bound: nat, id: Id)
    ensures id in Bucket(lib, a, key, nodes, bound)
       <==> id < bound && id in nodes && Multiplicity(lib, a, nodes[id], key) > 0
  {
    if bound > 0 {
      BucketMember(lib, a, key, nodes, bound - 1, id);
      if bound - 1 in nodes {
        var tail := Repeat(bound - 1, Multiplicity(lib, a, nodes[bound - 1], key));
        if |tail| > 0 {
          assert tail[0] == bound - 1;
        }
      }
    }
  }

  lemma {:induction false} BucketFrame(lib: Lib, a: Attribute, key: string, nodes: Table, nodes': Table, bound: nat)
    requires forall id :: 0 <= id < bound ==> (id in nodes <==> id in nodes')
    requires forall id :: 0 <= id < bound && id in nodes ==> nodes[id] == nodes'[id]
    ensures Bucket(lib, a, key, nodes, bound) == Bucket(lib, a, key, nodes', bound)
  {
    if bound > 0 {
      BucketFrame(lib, a, key, nodes, nodes', bound - 1);
    }
  }

  lemma {:induction false} BucketRetain(lib: Lib, a: Attribute, key: string, nodes: Table, stale: set<Id>, bound: nat)
    ensures Bucket(lib, a, key, nodes - stale, bound) == Retain(Bucket(lib, a, key, nodes, bound), stale)
  {
    if bound > 0 {
      BucketRetain(lib, a, key, nodes, stale, bound - 1);
      BucketRetainStep(lib, a, key, nodes, stale, bound);
    }
  }

  lemma BucketRetainStep(lib: Lib, a: Attribute, key: string, nodes: Table, stale: set<Id>, bound: nat)
    requires bound > 0
    requires Bucket(lib, a, key, nodes - stale, bound - 1) == Retain(Bucket(lib, a, key, nodes, bound - 1), stale)
    ensures Bucket(lib, a, key, nodes - stale, bound) == Retain(Bucket(lib, a, key, nodes, bound), stale)
  {
    hide *;
    BucketStep(lib, a, key, nodes, bound);
    BucketStep(lib, a, key, nodes - stale, bound);
    RetainAppend(Bucket(lib, a, key, nodes, bound - 1), Entries(lib, a, key, nodes, bound - 1), stale);
    EntriesRetain(lib, a, key, nodes, stale, bound - 1);
  }

  lemma EntriesRetain(lib: Lib, a: Attribute, key: string, nodes: Table, stale: set<Id>, id: Id)
    ensures Entries(lib, a, key, nodes - stale, id) == Retain(Entries(lib, a, key, nodes, id), stale)
  {
    hide Repeat, Multiplicity;
    if id in stale {
      RetainAll(Entries(lib, a, key, nodes, id), stale);
    } else {
      RetainNone(Entries(lib, a, key, nodes, id), stale);
    }
  }

  /** Appending one node to the table appends it, with its multiplicity, to each bucket. */
  lemma BucketAppend(lib: Lib, a: Attribute, key: string, nodes: Table, bound: nat, n: Node)
    ensures Bucket(lib, a, key, nodes[bound := n], bound + 1)
         == Bucket(lib, a, key, nodes, bound) + Repeat(bound, Multiplicity(lib, a, n, key))
  {
    BucketFrame(lib, a, key, nodes, nodes[bound := n], bound);
  }
}
