/** The canonical form used to compare two builds: it names nodes by content, never by id. */
module Canonical {
  import opened Text
  import opened Seqs
  import opened GraphModel
  import opened Records
  import opened EdgeLog
  import opened Renaming

  /** An end that is not in the table is written as missing. */
  datatype EdgeLine = EdgeLine(kind: EdgeKind, from: Option<Node>, to: Option<Node>, metadata: string,
    confidence: Confidence)

  /** The canonical lines, grouped by their label: sorting them gives the printed list. */
  datatype Lines = Lines(
    nodes: multiset<Node>, edges: multiset<EdgeLine>,
    imports: map<string, multiset<Option<Node>>>, producers: map<string, multiset<Option<Node>>>,
    consumers: map<string, multiset<Option<Node>>>, calls: multiset<(Option<Node>, string)>)

  function NodeAt(nodes: Table, id: Id): Option<Node> {
    if id in nodes then Some(nodes[id]) else None
  }

  function LineOf(nodes: Table, e: Edge): EdgeLine {
    EdgeLine(e.kind, NodeAt(nodes, e.from), NodeAt(nodes, e.to), e.metadata, e.confidence)
  }

  /** The live ids, ascending. */
  function Ids(nodes: Table, bound: nat): (r: seq<Id>)
    ensures forall id :: id in r <==> id in nodes && id < bound
    ensures NoDup(r)
  {
    if bound == 0 then []
    else if bound - 1 in nodes then
      var before := Ids(nodes, bound - 1);
      assert forall i :: 0 <= i < |before| ==> before[i] in before;
      before + [bound - 1]
    else Ids(nodes, bound - 1)
  }

  function EdgeLines(nodes: Table, edges: seq<Edge>): (r: seq<EdgeLine>)
    ensures |r| == |edges| && forall i :: 0 <= i < |r| ==> r[i] == LineOf(nodes, edges[i])
  {
    if edges == [] then [] else EdgeLines(nodes, edges[..|edges| - 1]) + [LineOf(nodes, edges[|edges| - 1])]
  }

  function Contents(nodes: Table, ids: seq<Id>): (r: seq<Option<Node>>)
    ensures |r| == |ids| && forall i :: 0 <= i < |r| ==> r[i] == NodeAt(nodes, ids[i])
  {
    if ids == [] then [] else Contents(nodes, ids[..|ids| - 1]) + [NodeAt(nodes, ids[|ids| - 1])]
  }

  function CallLines(nodes: Table, calls: seq<Call>): (r: seq<(Option<Node>, string)>)
    ensures |r| == |calls| && forall i :: 0 <= i < |r| ==> r[i] == (NodeAt(nodes, calls[i].0), calls[i].1)
  {
    if calls == [] then []
      else CallLines(nodes, calls[..|calls| - 1]) + [(NodeAt(nodes, calls[|calls| - 1].0), calls[|calls| - 1].1)]
  }

  function BucketLines(nodes: Table, b: Buckets): map<string, multiset<Option<Node>>> {
    map t | t in b :: multiset(Contents(nodes, b[t]))
  }

  function CanonicalLines(nodes: Table, bound: nat, f: Facts, edges: seq<Edge>): Lines {
    Lines(
      multiset(Image(nodes, Ids(nodes, bound))), multiset(EdgeLines(nodes, edges)),
      BucketLines(nodes, f.imports), BucketLines(nodes, f.producers), BucketLines(nodes, f.consumers),
      multiset(CallLines(nodes, f.calls)))
  }

  // ------------------------------------------------------------------ renaming leaves the lines alone

  lemma {:induction false} TallyImage(phi: map<Id, Id>, s: seq<Id>, x: Id)
    requires Injective(phi) && x in phi && forall i :: 0 <= i < |s| ==> s[i] in phi
    ensures Tally(Image(phi, s), phi[x]) == Tally(s, x)
  {
    if s != [] {
      TallyImage(phi, s[..|s| - 1], x);
    }
  }

  lemma MultisetByTally<T>(a: seq<T>, b: seq<T>)
    requires forall x :: Tally(a, x) == Tally(b, x)
    ensures multiset(a) == multiset(b)
  {
    forall x ensures multiset(a)[x] == multiset(b)[x] {
      TallyIsMultiplicity(a, x);
      TallyIsMultiplicity(b, x);
    }
  }

  lemma RenamedBucket(phi: map<Id, Id>, n1: Table, n2: Table, s1: seq<Id>, s2: seq<Id>)
    requires Iso(phi, n1, n2)
    requires forall i :: 0 <= i < |s1| ==> s1[i] in n1
    requires forall i :: 0 <= i < |s2| ==> s2[i] in n2
    requires forall id :: id in n1 ==> Tally(s1, id) == Tally(s2, phi[id])
    ensures multiset(Image(phi, s1)) == multiset(s2)
  {
    hide Image, Tally;
    var moved := Image(phi, s1);
    forall y ensures Tally(moved, y) == Tally(s2, y) {
      if y in n2 {
        var x := Preimage(phi, n1, n2, y);
        TallyImage(phi, s1, x);
      } else {
        TallyMember(moved, y);
        TallyMember(s2, y);
      }
    }
    MultisetByTally(moved, s2);
  }

  lemma BucketCanon(phi: map<Id, Id>, n1: Table, n2: Table, s1: seq<Id>, s2: seq<Id>)
    requires Iso(phi, n1, n2)
    requires forall i :: 0 <= i < |s1| ==> s1[i] in n1
    requires forall i :: 0 <= i < |s2| ==> s2[i] in n2
    requires forall id :: id in n1 ==> Tally(s1, id) == Tally(s2, phi[id])
    ensures multiset(Contents(n1, s1)) == multiset(Contents(n2, s2))
  {
    hide Tally, Image, Contents;
    RenamedBucket(phi, n1, n2, s1, s2);
    var content := map id | id in n2 :: NodeAt(n2, id);
    var moved := Image(phi, s1);
    ImagePermutation(content, moved, s2);
    assert Contents(n1, s1) == Image(content, moved);
    assert Contents(n2, s2) == Image(content, s2);
  }

  lemma BucketsCanon(phi: map<Id, Id>, n1: Table, n2: Table, b1: Buckets, b2: Buckets)
    requires Iso(phi, n1, n2) && SameBuckets(phi, n1, b1, b2) && NoEmptyBucket(b1) && NoEmptyBucket(b2)
    requires forall t, id :: id in At(b1, t) ==> id in n1
    requires forall t, id :: id in At(b2, t) ==> id in n2
    ensures BucketLines(n1, b1) == BucketLines(n2, b2)
  {
    hide Iso, Tally, Contents;
    KeysIso(phi, n1, n2, b1, b2);
    forall t | t in b1 ensures multiset(Contents(n1, b1[t])) == multiset(Contents(n2, b2[t])) {
      forall i | 0 <= i < |b1[t]| ensures b1[t][i] in n1 { assert b1[t][i] in At(b1, t); }
      forall i | 0 <= i < |b2[t]| ensures b2[t][i] in n2 { assert b2[t][i] in At(b2, t); }
      BucketTally(phi, n1, n2, b1, b2, t);
      BucketCanon(phi, n1, n2, b1[t], b2[t]);
    }
  }

  lemma BucketTally(phi: map<Id, Id>, n1: Table, n2: Table, b1: Buckets, b2: Buckets, t: string)
    requires Iso(phi, n1, n2) && SameBuckets(phi, n1, b1, b2) && t in b1 && t in b2
    ensures forall id :: id in n1 ==> Tally(b1[t], id) == Tally(b2[t], phi[id])
  {
    forall id | id in n1 ensures Tally(b1[t], id) == Tally(b2[t], phi[id]) {
      assert At(b1, t) == b1[t] && At(b2, t) == b2[t];
    }
  }

  lemma NodesCanon(phi: map<Id, Id>, n1: Table, n2: Table, b1: nat, b2: nat)
    requires Iso(phi, n1, n2) && Below(n1, b1) && Below(n2, b2)
    ensures multiset(Image(n1, Ids(n1, b1))) == multiset(Image(n2, Ids(n2, b2)))
  {
    hide Ids, Image;
    var ids1, ids2 := Ids(n1, b1), Ids(n2, b2);
    forall i | 0 <= i < |ids1| ensures ids1[i] in n1 { assert ids1[i] in ids1; }
    forall i | 0 <= i < |ids2| ensures ids2[i] in n2 { assert ids2[i] in ids2; }
    var moved := Image(phi, ids1);
    assert NoDup(moved);
    forall y { MovedId(phi, n1, n2, ids1, ids2, y); }
    SameElements(moved, ids2);
    ImagePermutation(n2, moved, ids2);
    assert Image(n1, ids1) == Image(n2, moved);
  }

  lemma MovedId(phi: map<Id, Id>, n1: Table, n2: Table, ids1: seq<Id>, ids2: seq<Id>, y: Id)
    requires Iso(phi, n1, n2) && (forall id :: id in ids1 <==> id in n1) && (forall id :: id in ids2 <==> id in n2)
    requires forall i :: 0 <= i < |ids1| ==> ids1[i] in phi
    ensures y in Image(phi, ids1) <==> y in ids2
  {
    hide Image;
    if y in ids2 {
      var x := Preimage(phi, n1, n2, y);
      var i :| 0 <= i < |ids1| && ids1[i] == x;
      assert Image(phi, ids1)[i] == y;
    }
    if y in Image(phi, ids1) {
      var i :| 0 <= i < |ids1| && Image(phi, ids1)[i] == y;
      assert ids1[i] in ids1;
    }
  }

  // ------------------------------------------------------------------ calls

  ghost function MoveCalls(phi: map<Id, Id>, calls: seq<Call>): (r: seq<Call>)
    requires forall i :: 0 <= i < |calls| ==> calls[i].0 in phi
    ensures |r| == |calls| && forall i :: 0 <= i < |r| ==> r[i] == (phi[calls[i].0], calls[i].1)
  {
    if calls == [] then []
      else MoveCalls(phi, calls[..|calls| - 1]) + [(phi[calls[|calls| - 1].0], calls[|calls| - 1].1)]
  }

  lemma {:induction false} TallyCallsOf(calls: seq<Call>, id: Id, r: string)
    ensures Tally(CallsOf(calls, id), r) == Tally(calls, (id, r))
  {
    if calls != [] {
      TallyCallsOf(calls[..|calls| - 1], id, r);
      var before, last := CallsOf(calls[..|calls| - 1], id), calls[|calls| - 1];
      if last.0 == id {
        assert CallsOf(calls, id) == before + [last.1];
        assert (before + [last.1])[..|before|] == before;
      } else {
        assert CallsOf(calls, id) == before;
      }
    }
  }

  lemma {:induction false} TallyMoved(phi: map<Id, Id>, calls: seq<Call>, x: Id, r: string)
    requires Injective(phi) && x in phi && forall i :: 0 <= i < |calls| ==> calls[i].0 in phi
    ensures Tally(MoveCalls(phi, calls), (phi[x], r)) == Tally(calls, (x, r))
  {
    if calls != [] {
      TallyMoved(phi, calls[..|calls| - 1], x, r);
    }
  }

  lemma MovedCalls(phi: map<Id, Id>, n1: Table, n2: Table, f1: Facts, f2: Facts)
    requires FactsIso(phi, n1, n2, f1, f2)
    ensures multiset(MoveCalls(phi, f1.calls)) == multiset(f2.calls)
  {
    hide Tally, CallsOf, MoveCalls, SameBuckets;
    var moved := MoveCalls(phi, f1.calls);
    forall c ensures Tally(moved, c) == Tally(f2.calls, c) {
      if c.0 in n2 {
        var x := Preimage(phi, n1, n2, c.0);
        TallyMoved(phi, f1.calls, x, c.1);
        TallyCallsOf(f1.calls, x, c.1);
        TallyCallsOf(f2.calls, c.0, c.1);
      } else {
        TallyMember(moved, c);
        TallyMember(f2.calls, c);
      }
    }
    MultisetByTally(moved, f2.calls);
  }

  lemma CallsCanon(phi: map<Id, Id>, n1: Table, n2: Table, f1: Facts, f2: Facts)
    requires FactsIso(phi, n1, n2, f1, f2)
    ensures multiset(CallLines(n1, f1.calls)) == multiset(CallLines(n2, f2.calls))
  {
    hide CallLines, MoveCalls, Image, SameBuckets;
    MovedCalls(phi, n1, n2, f1, f2);
    var moved := MoveCalls(phi, f1.calls);
    var line := map c | c in f2.calls + moved :: (NodeAt(n2, c.0), c.1);
    ImagePermutation(line, moved, f2.calls);
    assert CallLines(n1, f1.calls) == Image(line, moved);
    assert CallLines(n2, f2.calls) == Image(line, f2.calls);
  }

  // ------------------------------------------------------------------ edges

  ghost function MoveEdges(phi: map<Id, Id>, edges: seq<Edge>): (r: seq<Edge>)
    requires forall i :: 0 <= i < |edges| ==> edges[i].from in phi && edges[i].to in phi
    ensures |r| == |edges| && forall i :: 0 <= i < |r| ==> r[i] == Move(phi, edges[i])
  {
    if edges == [] then [] else MoveEdges(phi, edges[..|edges| - 1]) + [Move(phi, edges[|edges| - 1])]
  }

  /** Edge lists free of repeats that correspond edge by edge print the same lines. */
  lemma EdgesCanon(phi: map<Id, Id>, n1: Table, n2: Table, e1: seq<Edge>, e2: seq<Edge>)
    requires Iso(phi, n1, n2) && Distinct(e1) && Distinct(e2)
    requires forall i :: 0 <= i < |e1| ==> e1[i].from in n1 && e1[i].to in n1
    requires forall e :: e in e2 ==> e.from in n2 && e.to in n2
    requires forall e: Edge :: e.from in n1 && e.to in n1 ==> (e in e1 <==> Move(phi, e) in e2)
    ensures multiset(EdgeLines(n1, e1)) == multiset(EdgeLines(n2, e2))
  {
    hide EdgeLines, MoveEdges, Image;
    var moved := MoveEdges(phi, e1);
    MovedDistinct(phi, e1);
    forall e ensures e in moved <==> e in e2 {
      MovedMember(phi, n1, n2, e1, e2, e);
    }
    SameElements(moved, e2);
    var line := map e | e in e2 + moved :: LineOf(n2, e);
    ImagePermutation(line, moved, e2);
    hide Iso, Distinct, KeyOf;
    assert EdgeLines(n1, e1) == Image(line, moved);
    assert EdgeLines(n2, e2) == Image(line, e2);
  }

  lemma MovedDistinct(phi: map<Id, Id>, edges: seq<Edge>)
    requires Injective(phi) && Distinct(edges)
    requires forall i :: 0 <= i < |edges| ==> edges[i].from in phi && edges[i].to in phi
    ensures NoDup(MoveEdges(phi, edges))
  {
    hide MoveEdges;
    var moved := MoveEdges(phi, edges);
    forall i, j | 0 <= i < j < |moved| ensures moved[i] != moved[j] {
      assert KeyOf(edges[i]) != KeyOf(edges[j]);
    }
  }

  lemma MovedMember(phi: map<Id, Id>, n1: Table, n2: Table, e1: seq<Edge>, e2: seq<Edge>, e: Edge)
    requires Iso(phi, n1, n2)
    requires forall i :: 0 <= i < |e1| ==> e1[i].from in n1 && e1[i].to in n1
    requires forall x :: x in e2 ==> x.from in n2 && x.to in n2
    requires forall x: Edge :: x.from in n1 && x.to in n1 ==> (x in e1 <==> Move(phi, x) in e2)
    ensures e in MoveEdges(phi, e1) <==> e in e2
  {
    hide MoveEdges;
    var moved := MoveEdges(phi, e1);
    if e in moved {
      var i :| 0 <= i < |moved| && moved[i] == e;
      assert e1[i] in e1;
    }
    if e in e2 {
      var from := Preimage(phi, n1, n2, e.from);
      var to := Preimage(phi, n1, n2, e.to);
      var x := Edge(from, to, e.kind, e.metadata, e.confidence);
      assert Move(phi, x) == e;
      var i :| 0 <= i < |e1| && e1[i] == x;
      assert moved[i] == e;
    }
  }
}
