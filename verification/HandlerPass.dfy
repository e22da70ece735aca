/** Stage 4 of `reconcile_edges`: resolved handler names, then one `Implements` edge per accepted pair. */
module HandlerPass {
  import opened Text
  import opened Seqs
  import opened GraphModel
  import opened EdgeLog
  import opened Handlers
  import Ix = HandlerIndex
  import opened Records
  import opened RpcMeaning

  function Find<K, V>(m: map<K, V>, k: K): Option<V> {
    if k in m then Some(m[k]) else None
  }

  method OnlyOf(s: set<string>) returns (r: Option<string>)
    ensures r == TheOnly(s)
  {
    if s == {} {
      return None;
    }
    var v :| v in s;
    if s == {v} {
      return Some(v);
    }
    return None;
  }

  function Pairs(consts: map<string, set<Recorded>>, key: string): set<Recorded> {
    if key in consts then consts[key] else {}
  }

  /** Every recorded string constant, by name. */
  method ConstTable(nodes: Table, calls: seq<Call>) returns (consts: map<string, set<Recorded>>)
    ensures forall key :: Pairs(consts, key) == ConstPairs(nodes, calls, key)
  {
    consts := map[];
    for i := 0 to |calls|
      invariant forall key :: Pairs(consts, key) == ConstPairs(nodes, calls[..i], key)
    {
      hide Assignment;
      assert calls[..i + 1] == calls[..i] + [calls[i]];
      var (id, record) := calls[i];
      var a := Assignment(record, '$');
      if id in nodes && a.Some? {
        var key, pair := a.value.0, (nodes[id].repo, a.value.1);
        assert ConstPairs(nodes, calls[..i + 1], key) == ConstPairs(nodes, calls[..i], key) + {pair};
        forall k | k != key ensures ConstPairs(nodes, calls[..i + 1], k) == ConstPairs(nodes, calls[..i], k) {}
        ghost var before := consts;
        consts := consts[key := Pairs(consts, key) + {pair}];
        assert Pairs(consts, key) == Pairs(before, key) + {pair};
        forall k | k != key ensures Pairs(consts, k) == Pairs(before, k) {}
      } else {
        forall k ensures ConstPairs(nodes, calls[..i + 1], k) == ConstPairs(nodes, calls[..i], k) {}
      }
    }
    assert calls[..|calls|] == calls;
  }

  method LiteralOf(lib: Lib, ghost nodes: Table, ghost calls: seq<Call>, consts: map<string, set<Recorded>>,
        raw: string, repo: nat)
    returns (r: Option<string>)
    requires forall key :: Pairs(consts, key) == ConstPairs(nodes, calls, key)
    ensures r == Literal(lib, nodes, calls, raw, repo)
  {
    var expr := lib.trim(raw);
    if IsQuoted(expr) {
      var inner := expr[1..|expr| - 1];
      return if inner != "" then Some(inner) else None;
    }
    r := OnlyOf(Preferred(Pairs(consts, expr), Some(repo)));
  }

  /** The proto methods, in id order. */
  method ProtoMethods(lib: Lib, nodes: Table, bound: nat) returns (ids: seq<Id>)
    requires Below(nodes, bound)
    ensures NoDup(ids)
    ensures forall id :: id in ids <==> id in nodes && IsProtoMethod(lib, nodes[id])
  {
    ids := [];
    for id := 0 to bound
      invariant NoDup(ids) && forall i :: 0 <= i < |ids| ==> ids[i] < id
      invariant forall x: Id :: x in ids <==> x < id && x in nodes && IsProtoMethod(lib, nodes[x])
    {
      if id in nodes && IsProtoMethod(lib, nodes[id]) {
        ids := ids + [id];
      }
    }
  }

  /** Proto methods by exact name. */
  method ByName(nodes: Table, ids: seq<Id>) returns (byName: map<string, set<Id>>)
    requires forall i :: 0 <= i < |ids| ==> ids[i] in nodes
    ensures forall name, id ::
      name in byName && id in byName[name] <==> id in ids && id in nodes && nodes[id].name == name
  {
    byName := map[];
    for i := 0 to |ids|
      invariant forall name, id ::
        name in byName && id in byName[name] <==> id in ids[..i] && id in nodes && nodes[id].name == name
    {
      assert ids[..i + 1] == ids[..i] + [ids[i]];
      var name := nodes[ids[i]].name;
      byName := byName[name := (if name in byName then byName[name] else {}) + {ids[i]}];
    }
    assert ids[..|ids|] == ids;
  }

  /** One handler record, resolved. */
  method RefTargetOf(lib: Lib, nodes: Table, ghost calls: seq<Call>, consts: map<string, set<Recorded>>,
                     byName: map<string, set<Id>>, repo: nat, reference: string) returns (r: Option<string>)
    requires forall key :: Pairs(consts, key) == ConstPairs(nodes, calls, key)
    requires forall name, id ::
      name in byName && id in byName[name] <==> id in nodes && IsProtoMethod(lib, nodes[id]) && nodes[id].name == name
    ensures r == RefTarget(lib, nodes, calls, repo, reference)
  {
    hide ConstPairs, Literal, HandlerRef, IsProtoMethod;
    match HandlerRef(reference)
    case None => return None;
    case Some((serviceExpr, rpcExpr)) =>
      var service := LiteralOf(lib, nodes, calls, consts, serviceExpr, repo);
      var rpc := LiteralOf(lib, nodes, calls, consts, rpcExpr, repo);
      if service.None? || rpc.None? {
        return None;
      }
      var (package, bare) :=
        match RSplitOnce(service.value, '.') case Some((q, s)) => (Some(q), s) case None => (None, service.value);
      var name := bare + "." + rpc.value;
      var named := if name in byName then byName[name] else {};
      var declaredHere := set id | id in named && (package.Some? ==> id in nodes && nodes[id].package == package.value);
      assert declaredHere == ProtoNamed(lib, nodes, name, package);
      return if |declaredHere| == 1 then Some(name) else None;
  }

  /** Every handler record resolved to `Service.Method`: the last one that resolves wins per node. */
  method ResolveHandlerNames(lib: Lib, nodes: Table, calls: seq<Call>, protoIds: seq<Id>) returns (out: map<Id, string>)
    requires forall id :: id in protoIds <==> id in nodes && IsProtoMethod(lib, nodes[id])
    ensures forall id :: Find(out, id) == HandlerRpc(lib, nodes, calls, id)
  {
    var consts := ConstTable(nodes, calls);
    var byName := ByName(nodes, protoIds);
    out := map[];
    for i := 0 to |calls|
      invariant forall id ::
        Find(out, id) == if id in nodes then LastTarget(lib, nodes, calls, nodes[id].repo, CallsOf(calls[..i], id))
          else None
    {
      hide RefTarget, ConstPairs, IsProtoMethod;
      assert calls[..i + 1][..i] == calls[..i];
      var (id, record) := calls[i];
      ghost var before := out;
      var reference := StripPrefix(record, '@');
      if reference.Some? && id in nodes {
        var target := RefTargetOf(lib, nodes, calls, consts, byName, nodes[id].repo, reference.value);
        if target.Some? {
          out := out[id := target.value];
        }
      }
      forall x
        ensures Find(out, x) == if x in nodes
          then LastTarget(lib, nodes, calls, nodes[x].repo, CallsOf(calls[..i + 1], x)) else None {
        var records := CallsOf(calls[..i], x);
        if x == id && x in nodes {
          assert CallsOf(calls[..i + 1], x) == records + [record];
          assert (records + [record])[..|records|] == records;
        } else if x != id {
          assert CallsOf(calls[..i + 1], x) == records;
        } else {
          assert Find(before, x) == None && out == before;
        }
      }
    }
    assert calls[..|calls|] == calls;
  }

  /** The handlers, in id order, under their resolved names. */
  method CollectHandlers(lib: Lib, nodes: Table, bound: nat, ghost calls: seq<Call>, names: map<Id, string>)
    returns (hs: seq<Handler>)
    requires Below(nodes, bound)
    requires forall id :: Find(names, id) == HandlerRpc(lib, nodes, calls, id)
    ensures forall i :: 0 <= i < |hs| ==>
      hs[i].id in nodes && IsHandler(lib, nodes[hs[i].id]) && hs[i] == HandlerOf(lib, nodes, calls, hs[i].id)
    ensures forall i, j :: 0 <= i < j < |hs| ==> hs[i].id != hs[j].id
    ensures forall id :: id in nodes && IsHandler(lib, nodes[id]) ==> exists i :: 0 <= i < |hs| && hs[i].id == id
  {
    hide HandlerRpc, IsHandler;
    hs := [];
    for id := 0 to bound
      invariant forall i :: 0 <= i < |hs| ==>
        hs[i].id < id && hs[i].id in nodes && IsHandler(lib, nodes[hs[i].id])
        && hs[i] == HandlerOf(lib, nodes, calls, hs[i].id)
      invariant forall i, j :: 0 <= i < j < |hs| ==> hs[i].id != hs[j].id
      invariant forall x: Id :: x < id && x in nodes && IsHandler(lib, nodes[x]) ==>
        exists i :: 0 <= i < |hs| && hs[i].id == x
    {
      if id in nodes && IsHandler(lib, nodes[id]) {
        var name := if id in names then names[id] else nodes[id].name;
        ghost var before := hs;
        hs := hs + [Handler(id, name, lib.pascal(name), nodes[id].signature)];
        assert Find(names, id) == HandlerRpc(lib, nodes, calls, id);
        assert hs[|hs| - 1].id == id;
        assert forall i :: 0 <= i < |before| ==> hs[i] == before[i];
      }
    }
  }

  /** The pairs emitted so far: all of the first `p` methods. */
  ghost predicate PairsDone(lib: Lib, nodes: Table, calls: seq<Call>, done: set<(Id, Id)>, log: Log, r: Log) {
    && r.Ok() && log.edges <= r.edges
    && (forall k :: k in r.seen && k !in log.seen ==> k.2 == Implements)
    && (forall k :: k in r.seen && k.2 == Implements ==> (k.0, k.1) in done)
    && (forall e ::
         e in r.edges <==> e in log.edges || (ImplementsEdge(lib, nodes, calls, e) && (e.from, e.to) in done))
  }

  lemma PairDone(lib: Lib, nodes: Table, calls: seq<Call>, done: set<(Id, Id)>, log: Log, r: Log, r': Log, from: Id,
        to: Id, c: Option<Confidence>)
    requires PairsDone(lib, nodes, calls, done, log, r) && (from, to) !in done
    requires from in nodes && IsHandler(lib, nodes[from]) && to in nodes && IsProtoMethod(lib, nodes[to])
    requires c == MatchConfidence(lib, HandlerOf(lib, nodes, calls, from), nodes[to].name)
    requires r' == if c.Some? then r.Emit(Edge(from, to, Implements, nodes[to].name, c.value)) else r
    ensures PairsDone(lib, nodes, calls, done + {(from, to)}, log, r')
  {
    hide IsHandler, IsProtoMethod, MatchConfidence, HandlerOf;
    forall e
      ensures e in r'.edges
        <==> e in log.edges || (ImplementsEdge(lib, nodes, calls, e) && (e.from, e.to) in done + {(from, to)}) {
      if ImplementsEdge(lib, nodes, calls, e) && (e.from, e.to) == (from, to) {
        assert c.Some? && e == Edge(from, to, Implements, nodes[to].name, c.value);
        assert KeyOf(e) !in r.seen;
      }
    }
  }

  /** Pairs the predicate rejects need no visit. */
  lemma RejectedPairs(lib: Lib, nodes: Table, calls: seq<Call>, done: set<(Id, Id)>, done': set<(Id, Id)>, log: Log,
        r: Log)
    requires PairsDone(lib, nodes, calls, done, log, r) && done <= done'
    requires forall e :: ImplementsEdge(lib, nodes, calls, e) && (e.from, e.to) in done' ==> (e.from, e.to) in done
    ensures PairsDone(lib, nodes, calls, done', log, r)
  {
    hide ImplementsEdge;
  }

  /** All pairs of handlers with one proto method, through the index. */
  method LinkMethod(lib: Lib, nodes: Table, ghost calls: seq<Call>, hs: seq<Handler>, index: Ix.Index, to: Id,
                    ghost done: set<(Id, Id)>, ghost log: Log, r0: Log) returns (r: Log, ghost done': set<(Id, Id)>)
    requires !lib.alphanumeric('.') && Ix.Ok(lib, hs, index)
    requires forall i :: 0 <= i < |hs| ==>
      hs[i].id in nodes && IsHandler(lib, nodes[hs[i].id]) && hs[i] == HandlerOf(lib, nodes, calls, hs[i].id)
    requires forall i, j :: 0 <= i < j < |hs| ==> hs[i].id != hs[j].id
    requires forall id :: id in nodes && IsHandler(lib, nodes[id]) ==> exists i :: 0 <= i < |hs| && hs[i].id == id
    requires to in nodes && IsProtoMethod(lib, nodes[to])
    requires PairsDone(lib, nodes, calls, done, log, r0) && forall d :: d in done ==> d.1 != to
    ensures done' == done + set id | id in nodes && IsHandler(lib, nodes[id]) :: (id, to)
    ensures PairsDone(lib, nodes, calls, done', log, r)
  {
    hide Ix.Ok, IsHandler, IsProtoMethod, HandlerOf, MatchConfidence, PairsDone;
    var fqcn := nodes[to].name;
    var bare := LastSegment(fqcn);
    var candidates := Ix.Candidates(lib, hs, index, fqcn, bare);
    r, done' := r0, done;
    forall k | 0 <= k < |candidates| ensures candidates[k] < |hs| {
      assert candidates[k] in candidates;
    }
    for m := 0 to |candidates|
      invariant PairsDone(lib, nodes, calls, done', log, r)
      invariant forall d ::
        d in done' <==> d in done || (d.1 == to && exists k :: 0 <= k < m && hs[candidates[k]].id == d.0)
    {
      var i := candidates[m];
      assert i in candidates;
      assert i < |hs|;
      var c := Judge(lib, hs[i], fqcn, bare);
      ghost var before := r;
      assert (hs[i].id, to) !in done' by {
        forall k | 0 <= k < m ensures hs[candidates[k]].id != hs[i].id {
          assert candidates[k] in candidates && candidates[k] < i;
        }
      }
      if c.Some? {
        r := r.Emit(Edge(hs[i].id, to, Implements, fqcn, c.value));
      }
      PairDone(lib, nodes, calls, done', log, before, r, hs[i].id, to, c);
      done' := done' + {(hs[i].id, to)};
    }
    ghost var all := done + set id | id in nodes && IsHandler(lib, nodes[id]) :: (id, to);
    forall e | ImplementsEdge(lib, nodes, calls, e) && (e.from, e.to) in all ensures (e.from, e.to) in done' {
      if (e.from, e.to) !in done {
        assert e.to == to;
        var i :| 0 <= i < |hs| && hs[i].id == e.from;
        assert MatchConfidence(lib, hs[i], fqcn).Some?;
        assert i in candidates;
        var k :| 0 <= k < |candidates| && candidates[k] == i;
      }
    }
    forall d | d in done' ensures d in all {
      if d !in done {
        var k :| 0 <= k < |candidates| && hs[candidates[k]].id == d.0;
        assert candidates[k] in candidates;
      }
    }
    RejectedPairs(lib, nodes, calls, done', all, log, r);
    done' := all;
  }

  method ReconcileHandlers(lib: Lib, nodes: Table, bound: nat, calls: seq<Call>, log: Log)
    returns (r: Log, names: map<Id, string>)
    requires !lib.alphanumeric('.') && Below(nodes, bound)
    requires log.Ok() && log.Lacks(Implements)
    ensures r.Ok() && log.edges <= r.edges
    ensures forall k :: k in r.seen && k !in log.seen ==> k.2 == Implements
    ensures forall e :: e in r.edges <==> e in log.edges || ImplementsEdge(lib, nodes, calls, e)
    ensures forall id :: Find(names, id) == HandlerRpc(lib, nodes, calls, id)
  {
    hide Ix.Ok, IsHandler, IsProtoMethod, HandlerOf, MatchConfidence, HandlerRpc;
    var protoIds := ProtoMethods(lib, nodes, bound);
    names := ResolveHandlerNames(lib, nodes, calls, protoIds);
    var hs := CollectHandlers(lib, nodes, bound, calls, names);
    var index := Ix.Build(lib, hs);
    r := log;
    ghost var done: set<(Id, Id)> := {};
    for p := 0 to |protoIds|
      invariant PairsDone(lib, nodes, calls, done, log, r)
      invariant forall d :: d in done ==> d.1 in protoIds[..p]
      invariant forall d: (Id, Id) :: d.1 in protoIds[..p] && d.0 in nodes && IsHandler(lib, nodes[d.0]) ==> d in done
    {
      var to := protoIds[p];
      assert to in protoIds;
      assert protoIds[..p + 1] == protoIds[..p] + [to];
      assert to !in protoIds[..p];
      r, done := LinkMethod(lib, nodes, calls, hs, index, to, done, log, r);
    }
    assert protoIds[..|protoIds|] == protoIds;
  }
}
