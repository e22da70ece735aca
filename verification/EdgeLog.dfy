/** The edge list under construction, with the `(from, to, kind)` set that keeps it free of repeats. */
module EdgeLog {
  import opened Seqs
  import opened GraphModel

  type EdgeKey = (Id, Id, EdgeKind)

  function KeyOf(e: Edge): EdgeKey {
    (e.from, e.to, e.kind)
  }

  /** No two edges share from, to and kind. */
  ghost predicate Distinct(edges: seq<Edge>) {
    forall i, j :: 0 <= i < j < |edges| ==> KeyOf(edges[i]) != KeyOf(edges[j])
  }

  datatype Log = Log(edges: seq<Edge>, seen: set<EdgeKey>) {
    ghost predicate Ok() {
      && Distinct(edges)
      && (forall e :: e in edges ==> KeyOf(e) in seen)
      && (forall k :: k in seen ==> exists e :: e in edges && KeyOf(e) == k)
    }

    /** `if edge_set.insert(key) { edges.push(e) }`. */
    function Emit(e: Edge): (r: Log)
      ensures Ok() ==> r.Ok()
      ensures r.seen == seen + {KeyOf(e)}
      ensures edges <= r.edges
      ensures forall x :: x in r.edges <==> x in edges || (x == e && KeyOf(e) !in seen)
    {
      if KeyOf(e) in seen then this else
      var r := Log(edges + [e], seen + {KeyOf(e)});
      assert Ok() ==> r.Ok() by {
        if Ok() {
          forall k | k in r.seen ensures exists x :: x in r.edges && KeyOf(x) == k {
            if k == KeyOf(e) {
              assert e in r.edges;
            } else {
              var x :| x in edges && KeyOf(x) == k;
              assert x in r.edges;
            }
          }
        }
      }
      r
    }

    /** No edge of the kind has been emitted yet. */
    ghost predicate Lacks(kind: EdgeKind) {
      forall k :: k in seen ==> k.2 != kind
    }
  }

  const Start := Log([], {})

  lemma StartOk()
    ensures Start.Ok() && forall kind :: Start.Lacks(kind)
  {
  }

  /** Emits one edge per target, skipping ends already linked. */
  method EmitTargets(log: Log, from: Id, targets: seq<Id>, kind: EdgeKind, metadata: string, c: Confidence)
    returns (r: Log)
    requires log.Ok()
    ensures r.Ok() && log.edges <= r.edges
    ensures forall k :: k in r.seen <==> k in log.seen || (k.0 == from && k.1 in targets && k.2 == kind)
    ensures forall e ::
      e in r.edges
      <==> e in log.edges || (e == Edge(from, e.to, kind, metadata, c) && e.to in targets && KeyOf(e) !in log.seen)
  {
    r := log;
    for i := 0 to |targets|
      invariant r.Ok() && log.edges <= r.edges
      invariant forall k :: k in r.seen <==> k in log.seen || (k.0 == from && k.1 in targets[..i] && k.2 == kind)
      invariant forall e ::
        e in r.edges
        <==> e in log.edges
             || (e == Edge(from, e.to, kind, metadata, c) && e.to in targets[..i] && KeyOf(e) !in log.seen)
    {
      r := r.Emit(Edge(from, targets[i], kind, metadata, c));
      assert targets[..i + 1] == targets[..i] + [targets[i]];
    }
    assert targets[..|targets|] == targets;
  }

  /** Edges free of repeats, given as a set: any two such lists are permutations of each other. */
  lemma DistinctNoDup(edges: seq<Edge>)
    requires Distinct(edges)
    ensures NoDup(edges)
  {
  }
}
