/** Stage 5 of `reconcile_edges`: every `CallsRpc` edge, from the recorded calls. */
module CallPass {
  import opened Text
  import opened Seqs
  import opened GraphModel
  import opened Imports
  import opened ImportMeaning
  import opened EdgeLog
  import opened Records
  import opened RpcMeaning
  import opened HandlerPass

  // ------------------------------------------------------------------ candidate lists grouped by package

  /** A candidate list with its ids grouped by declared package; not grouped when there is only one. */
  datatype PackageBucket = PackageBucket(ids: seq<Id>, byPackage: map<string, seq<Id>>)

  /** The listed ids of one package, in list order: what a scan of the list finds. */
  function Scan(nodes: Table, ids: seq<Id>, package: string): seq<Id> {
    if ids == [] then []
    else
      var last := ids[|ids| - 1];
      Scan(nodes, ids[..|ids| - 1], package) + if last in nodes && nodes[last].package == package then [last] else []
  }

  /** Disambiguation by scanning the list per call. */
  function PickByScan(nodes: Table, ids: seq<Id>, package: string, c: Confidence): Resolution {
    if |ids| == 1 then Resolution(ids, c)
    else
      var same := Scan(nodes, ids, package);
      if |same| == 1 then Resolution(same, c)
      else if same == [] then Resolution(ids, Ambiguous)
      else Resolution(same, Ambiguous)
  }

  /** Disambiguation by looking the package up. */
  function Pick(b: PackageBucket, package: string, c: Confidence): Resolution {
    if |b.ids| == 1 then Resolution(b.ids, c)
    else
      var same := At(b.byPackage, package);
      if |same| == 1 then Resolution(same, c)
      else if same == [] then Resolution(b.ids, Ambiguous)
      else Resolution(same, Ambiguous)
  }

  ghost predicate Grouped(nodes: Table, b: PackageBucket) {
    |b.ids| != 1 ==> forall p :: At(b.byPackage, p) == Scan(nodes, b.ids, p)
  }

  /** The grouped lookup returns exactly what the scan would. */
  lemma PickIsScan(nodes: Table, b: PackageBucket, package: string, c: Confidence)
    requires Grouped(nodes, b)
    ensures Pick(b, package, c) == PickByScan(nodes, b.ids, package, c)
  {
  }

  method GroupByPackage(nodes: Table, ids: seq<Id>) returns (b: PackageBucket)
    ensures b.ids == ids && Grouped(nodes, b)
  {
    var byPackage: map<string, seq<Id>> := map[];
    if |ids| > 1 {
      for i := 0 to |ids|
        invariant forall p :: At(byPackage, p) == Scan(nodes, ids[..i], p)
      {
        assert ids[..i + 1][..i] == ids[..i];
        if ids[i] in nodes {
          var p := nodes[ids[i]].package;
          byPackage := byPackage[p := At(byPackage, p) + [ids[i]]];
        }
      }
      assert ids[..|ids|] == ids;
    }
    b := PackageBucket(ids, byPackage);
  }

  lemma {:induction false} ScanMember(nodes: Table, ids: seq<Id>, package: string)
    requires NoDup(ids)
    ensures NoDup(Scan(nodes, ids, package))
    ensures forall id :: id in Scan(nodes, ids, package) <==> id in ids && id in nodes && nodes[id].package == package
  {
    if ids != [] {
      ScanMember(nodes, ids[..|ids| - 1], package);
    }
  }

  lemma {:induction false} NoDupSize<T>(s: seq<T>, elements: set<T>)
    requires NoDup(s) && forall x :: x in s <==> x in elements
    ensures |s| == |elements|
  {
    if s != [] {
      var last := s[|s| - 1];
      assert s[..|s| - 1] + [last] == s;
      forall x ensures x in s[..|s| - 1] <==> x in elements - {last} {
        assert x in s <==> x in s[..|s| - 1] || x == last;
      }
      NoDupSize(s[..|s| - 1], elements - {last});
    }
  }

  /** A bucket lists the set, once each, grouped. */
  ghost predicate BucketOk(nodes: Table, b: PackageBucket, s: set<Id>) {
    NoDup(b.ids) && Grouped(nodes, b) && forall id :: id in b.ids <==> id in s
  }

  lemma PickAgrees(nodes: Table, b: PackageBucket, s: set<Id>, package: string, c: Confidence)
    requires BucketOk(nodes, b, s)
    ensures Agree(Pick(b, package, c), ChoosePackage(nodes, s, package, c))
  {
    PickIsScan(nodes, b, package, c);
    ScanMember(nodes, b.ids, package);
    NoDupSize(b.ids, s);
    var same := set id | id in s && id in nodes && nodes[id].package == package;
    NoDupSize(Scan(nodes, b.ids, package), same);
    if |Scan(nodes, b.ids, package)| > 0 {
      assert Scan(nodes, b.ids, package)[0] in Scan(nodes, b.ids, package);
    }
  }

  method PickFor(nodes: Table, b: PackageBucket, ghost s: set<Id>, package: Option<string>, c: Confidence,
        unowned: Confidence)
    returns (r: Resolution)
    requires BucketOk(nodes, b, s)
    ensures Agree(r, PickPackage(nodes, s, package, c, unowned))
  {
    match package
    case Some(p) =>
      PickAgrees(nodes, b, s, p, c);
      r := Pick(b, p, c);
    case None =>
      r := Resolution(b.ids, unowned);
  }

  // ------------------------------------------------------------------ the two target tables

  type Targets = map<string, PackageBucket>

  datatype Tables = Tables(byFqcn: Targets, byBare: Targets)

  ghost predicate FqcnOk(lib: Lib, nodes: Table, t: Targets) {
    && (forall key :: key in t <==> FqcnListed(lib, nodes, key) != {})
    && (forall key :: key in t ==> BucketOk(nodes, t[key], FqcnListed(lib, nodes, key)))
  }

  ghost predicate BareOk(lib: Lib, nodes: Table, t: Targets) {
    && (forall key :: key in t <==> BareListed(lib, nodes, key) != {})
    && (forall key :: key in t ==> BucketOk(nodes, t[key], BareListed(lib, nodes, key)))
  }

  /** The listed ids a key function sends to each key, once each. */
  ghost predicate ListsOk(lists: Buckets, ids: seq<Id>, key: map<Id, string>) {
    && NoEmptyBucket(lists)
    && (forall k :: NoDup(At(lists, k)))
    && (forall k, id :: id in At(lists, k) <==> id in ids && id in key && key[id] == k)
  }

  method ListByKey(ids: seq<Id>, key: map<Id, string>) returns (lists: Buckets)
    requires NoDup(ids) && forall i :: 0 <= i < |ids| ==> ids[i] in key
    ensures ListsOk(lists, ids, key)
  {
    lists := map[];
    for i := 0 to |ids|
      invariant ListsOk(lists, ids[..i], key)
    {
      ghost var before := lists;
      assert ids[..i + 1] == ids[..i] + [ids[i]];
      var k := key[ids[i]];
      assert ids[i] !in At(lists, k) by {
        assert ids[i] !in ids[..i];
      }
      lists := lists[k := At(lists, k) + [ids[i]]];
      assert At(lists, k) == At(before, k) + [ids[i]];
      forall k' | k' != k ensures At(lists, k') == At(before, k') {}
    }
    assert ids[..|ids|] == ids;
  }

  method GroupAll(nodes: Table, lists: Buckets) returns (t: Targets)
    ensures t.Keys == lists.Keys
    ensures forall k :: k in t ==> t[k].ids == lists[k] && Grouped(nodes, t[k])
  {
    t := map[];
    var todo := lists.Keys;
    while todo != {}
      invariant todo <= lists.Keys && t.Keys == lists.Keys - todo
      invariant forall k :: k in t ==> t[k].ids == lists[k] && Grouped(nodes, t[k])
    {
      var k :| k in todo;
      var b := GroupByPackage(nodes, lists[k]);
      t := t[k := b];
      todo := todo - {k};
    }
  }

  /** The declared services, in id order. */
  method Services(nodes: Table, bound: nat) returns (ids: seq<Id>)
    requires Below(nodes, bound)
    ensures NoDup(ids)
    ensures forall id :: id in ids <==> id in nodes && nodes[id].kind.GrpcService?
  {
    ids := [];
    for id := 0 to bound
      invariant NoDup(ids) && forall i :: 0 <= i < |ids| ==> ids[i] < id
      invariant forall x: Id :: x in ids <==> x < id && x in nodes && nodes[x].kind.GrpcService?
    {
      if id in nodes && nodes[id].kind.GrpcService? {
        ids := ids + [id];
      }
    }
  }

  /** The listed ids with this key. */
  ghost function Keyed(ids: seq<Id>, key: map<Id, string>, k: string): set<Id> {
    set id | id in ids && id in key && key[id] == k
  }

  method BuildTargets(nodes: Table, ids: seq<Id>, key: map<Id, string>) returns (t: Targets)
    requires NoDup(ids) && forall i :: 0 <= i < |ids| ==> ids[i] in key
    ensures forall k :: k in t <==> Keyed(ids, key, k) != {}
    ensures forall k :: k in t ==> BucketOk(nodes, t[k], Keyed(ids, key, k))
  {
    hide Grouped;
    var lists := ListByKey(ids, key);
    t := GroupAll(nodes, lists);
    forall k ensures k in t <==> Keyed(ids, key, k) != {} {
      if k in lists {
        assert lists[k][0] in At(lists, k);
        assert lists[k][0] in Keyed(ids, key, k);
      } else {
        assert forall id :: id !in At(lists, k);
      }
    }
    forall k | k in t ensures BucketOk(nodes, t[k], Keyed(ids, key, k)) {
      assert At(lists, k) == t[k].ids;
    }
  }

  method BuildTables(lib: Lib, nodes: Table, bound: nat) returns (t: Tables)
    requires Below(nodes, bound)
    ensures FqcnOk(lib, nodes, t.byFqcn) && BareOk(lib, nodes, t.byBare)
  {
    hide BucketOk, NoDup, Keyed, FqcnListed, BareListed, LastSegment, IsProtoMethod, FqcnOk, BareOk;
    var protoIds := ProtoMethods(lib, nodes, bound);
    var serviceIds := Services(nodes, bound);
    var byFqcn := BuildFqcn(lib, nodes, protoIds, serviceIds);
    var byBare := BuildBare(lib, nodes, protoIds);
    t := Tables(byFqcn, byBare);
  }

  method BuildFqcn(lib: Lib, nodes: Table, protoIds: seq<Id>, serviceIds: seq<Id>) returns (t: Targets)
    requires NoDup(protoIds) && forall id :: id in protoIds <==> id in nodes && IsProtoMethod(lib, nodes[id])
    requires NoDup(serviceIds) && forall id :: id in serviceIds <==> id in nodes && nodes[id].kind.GrpcService?
    ensures FqcnOk(lib, nodes, t)
  {
    DeclaredOnce(lib, nodes, protoIds, serviceIds);
    hide BucketOk, NoDup, Keyed, FqcnListed, LastSegment, IsProtoMethod;
    var fullKey := map id | id in nodes :: lib.lower(nodes[id].name);
    t := BuildTargets(nodes, protoIds + serviceIds, fullKey);
    KeyedIsListed(lib, nodes, protoIds, serviceIds, fullKey);
  }

  method BuildBare(lib: Lib, nodes: Table, protoIds: seq<Id>) returns (t: Targets)
    requires NoDup(protoIds) && forall id :: id in protoIds <==> id in nodes && IsProtoMethod(lib, nodes[id])
    ensures BareOk(lib, nodes, t)
  {
    hide BucketOk, NoDup, Keyed, BareListed, LastSegment, IsProtoMethod;
    var bareKey := map id | id in nodes :: lib.lower(LastSegment(nodes[id].name));
    t := BuildTargets(nodes, protoIds, bareKey);
    KeyedIsBare(lib, nodes, protoIds, bareKey);
  }

  lemma KeyedIsListed(lib: Lib, nodes: Table, protoIds: seq<Id>, serviceIds: seq<Id>, fullKey: map<Id, string>)
    requires forall id :: id in protoIds <==> id in nodes && IsProtoMethod(lib, nodes[id])
    requires forall id :: id in serviceIds <==> id in nodes && nodes[id].kind.GrpcService?
    requires fullKey == map id | id in nodes :: lib.lower(nodes[id].name)
    ensures forall k :: Keyed(protoIds + serviceIds, fullKey, k) == FqcnListed(lib, nodes, k)
  {
    hide IsProtoMethod, LastSegment;
    forall k ensures Keyed(protoIds + serviceIds, fullKey, k) == FqcnListed(lib, nodes, k) {}
  }

  lemma KeyedIsBare(lib: Lib, nodes: Table, protoIds: seq<Id>, bareKey: map<Id, string>)
    requires forall id :: id in protoIds <==> id in nodes && IsProtoMethod(lib, nodes[id])
    requires bareKey == map id | id in nodes :: lib.lower(LastSegment(nodes[id].name))
    ensures forall k :: Keyed(protoIds, bareKey, k) == BareListed(lib, nodes, k)
  {
    hide IsProtoMethod, LastSegment;
    forall k ensures Keyed(protoIds, bareKey, k) == BareListed(lib, nodes, k) {}
  }

  lemma DeclaredOnce(lib: Lib, nodes: Table, protoIds: seq<Id>, serviceIds: seq<Id>)
    requires NoDup(protoIds) && forall id :: id in protoIds <==> id in nodes && IsProtoMethod(lib, nodes[id])
    requires NoDup(serviceIds) && forall id :: id in serviceIds <==> id in nodes && nodes[id].kind.GrpcService?
    ensures NoDup(protoIds + serviceIds)
    ensures forall i :: 0 <= i < |protoIds| ==> protoIds[i] in nodes
    ensures forall i :: 0 <= i < |protoIds + serviceIds| ==> (protoIds + serviceIds)[i] in nodes
  {
    forall i | 0 <= i < |protoIds| ensures protoIds[i] in nodes && nodes[protoIds[i]].kind.GrpcMethod? {
      assert protoIds[i] in protoIds;
    }
    forall i | 0 <= i < |serviceIds| ensures serviceIds[i] in nodes && nodes[serviceIds[i]].kind.GrpcService? {
      assert serviceIds[i] in serviceIds;
    }
  }

  // ------------------------------------------------------------------ one call

  method ResolveTargetOf(lib: Lib, nodes: Table, t: Tables, package: Option<string>, target: string)
    returns (r: Resolution)
    requires FqcnOk(lib, nodes, t.byFqcn) && BareOk(lib, nodes, t.byBare)
    ensures Agree(r, ResolveTarget(lib, nodes, package, target))
  {
    hide FqcnListed, BareListed, ChoosePackage, BucketOk;
    var full, bare := lib.lower(target), lib.lower(LastSegment(target));
    if full in t.byFqcn {
      r := PickFor(nodes, t.byFqcn[full], FqcnListed(lib, nodes, full), package, Exact, Exact);
    } else if bare in t.byBare {
      r := PickFor(nodes, t.byBare[bare], BareListed(lib, nodes, bare), package, Heuristic, Ambiguous);
    } else {
      r := Resolution([], Exact);
    }
  }

  function DropHealth(lib: Lib, nodes: Table, ids: seq<Id>): (r: seq<Id>)
    ensures forall id :: id in r <==> id in ids && (id in nodes ==> !IsHealthService(lib, nodes[id]))
  {
    if ids == [] then []
    else
      var last := ids[|ids| - 1];
      DropHealth(lib, nodes, ids[..|ids| - 1])
      + if last in nodes && IsHealthService(lib, nodes[last]) then [] else [last]
  }

  lemma TargetsLive(lib: Lib, nodes: Table, package: Option<string>, target: string)
    ensures ResolveTarget(lib, nodes, package, target).ids <= nodes.Keys
  {
  }

  method ResolveCallOf(lib: Lib, nodes: Table, t: Tables, package: Option<string>, target: string)
    returns (r: Resolution)
    requires FqcnOk(lib, nodes, t.byFqcn) && BareOk(lib, nodes, t.byBare)
    ensures Agree(r, ResolveCall(lib, nodes, package, target))
  {
    hide FqcnOk, BareOk, ResolveTarget, IsHealthService, MayAddService;
    var found := ResolveTargetOf(lib, nodes, t, package, target);
    TargetsLive(lib, nodes, package, target);
    assert found.ids == [] <==> ResolveTarget(lib, nodes, package, target).ids == {} by {
      if found.ids != [] { assert found.ids[0] in found.ids; }
    }
    if found.ids == [] && MayAddService(target) {
      found := ResolveTargetOf(lib, nodes, t, package, target + "Service");
      TargetsLive(lib, nodes, package, target + "Service");
    }
    r := Resolution(DropHealth(lib, nodes, found.ids), found.confidence);
  }

  method ResolveMethodOf(lib: Lib, nodes: Table, t: Tables, package: Option<string>, target: string, inferred: bool)
    returns (r: Resolution)
    requires FqcnOk(lib, nodes, t.byFqcn)
    ensures Agree(r, ResolveMethod(lib, nodes, package, target, inferred))
  {
    hide FqcnListed;
    var key := lib.lower(target);
    var c := if inferred then Heuristic else Exact;
    if key !in t.byFqcn {
      assert FqcnListed(lib, nodes, key) == {};
      return Resolution([], c);
    }
    r := PickFor(nodes, t.byFqcn[key], FqcnListed(lib, nodes, key), package, c, c);
  }

  type Fields = map<(string, string), set<Recorded>>

  function FieldsAt(fields: Fields, key: (string, string)): set<Recorded> {
    if key in fields then fields[key] else {}
  }

  /** The client fields each class binds. */
  method FieldTable(nodes: Table, calls: seq<Call>) returns (fields: Fields)
    ensures forall c, f :: FieldsAt(fields, (c, f)) == FieldPairs(nodes, calls, c, f)
  {
    fields := map[];
    for i := 0 to |calls|
      invariant forall c, f :: FieldsAt(fields, (c, f)) == FieldPairs(nodes, calls[..i], c, f)
    {
      hide Assignment;
      assert calls[..i + 1] == calls[..i] + [calls[i]];
      var (id, record) := calls[i];
      var a := Assignment(record, '#');
      if id in nodes && a.Some? {
        var key, pair := (nodes[id].name, a.value.0), (nodes[id].repo, a.value.1);
        assert FieldPairs(nodes, calls[..i + 1], key.0, key.1) == FieldPairs(nodes, calls[..i], key.0, key.1) + {pair};
        forall c, f | (c, f) != key
          ensures FieldPairs(nodes, calls[..i + 1], c, f) == FieldPairs(nodes, calls[..i], c, f) {}
        ghost var before := fields;
        fields := fields[key := FieldsAt(fields, key) + {pair}];
        assert FieldsAt(fields, key) == FieldsAt(before, key) + {pair};
        forall k | k != key ensures FieldsAt(fields, k) == FieldsAt(before, k) {}
      } else {
        forall c, f ensures FieldPairs(nodes, calls[..i + 1], c, f) == FieldPairs(nodes, calls[..i], c, f) {}
      }
    }
    assert calls[..|calls|] == calls;
  }

  /** What each node's handler records say it serves. */
  method ServedTable(calls: seq<Call>, names: map<Id, string>) returns (served: map<Id, (Option<string>, string)>)
    ensures forall id :: Find(served, id) == Served(CallsOf(calls, id), Find(names, id))
  {
    served := map[];
    for i := 0 to |calls|
      invariant forall id :: Find(served, id) == Served(CallsOf(calls[..i], id), Find(names, id))
    {
      hide ServedBy;
      assert calls[..i + 1][..i] == calls[..i];
      var (id, record) := calls[i];
      ghost var before := served;
      var reference := StripPrefix(record, '@');
      if reference.Some? {
        var s := ServedBy(reference.value, Find(names, id));
        if s.Some? {
          served := served[id := s.value];
        }
      }
      forall x ensures Find(served, x) == Served(CallsOf(calls[..i + 1], x), Find(names, x)) {
        var records := CallsOf(calls[..i], x);
        if x == id {
          assert CallsOf(calls[..i + 1], x) == records + [record];
          assert (records + [record])[..|records|] == records;
        } else {
          assert CallsOf(calls[..i + 1], x) == records;
        }
      }
    }
    assert calls[..|calls|] == calls;
  }

  method InheritedOf(ghost nodes: Table, ghost calls: seq<Call>, fields: Fields, repo: Option<nat>, record: string)
    returns (r: Option<Attempt>)
    requires forall c, f :: FieldsAt(fields, (c, f)) == FieldPairs(nodes, calls, c, f)
    ensures r == Inherited(nodes, calls, repo, record)
  {
    hide FieldPairs, Preferred, ServiceFromField, TheOnly;
    match SplitOnce(record, '#')
    case None => return None;
    case Some((base, rest)) =>
      match SplitOnce(rest, '.')
      case None => return None;
      case Some((field, rpc)) =>
        var services := Preferred(FieldsAt(fields, (base, field)), repo);
        if services != {} && services - {""} == {} {
          return None;
        }
        var named := OnlyOf(services - {""});
        if named.Some? {
          return Some(Attempt(named.value + "." + rpc, true, false));
        }
        match ServiceFromField(field)
        case Some(service) => return Some(Attempt(service + "." + rpc, true, true));
        case None => return None;
  }

  method AttemptFor(nodes: Table, ghost calls: seq<Call>, fields: Fields, caller: Id, record: string)
    returns (r: Option<Attempt>)
    requires forall c, f :: FieldsAt(fields, (c, f)) == FieldPairs(nodes, calls, c, f)
    ensures r == AttemptOf(nodes, calls, caller, record)
  {
    hide FieldPairs, Inherited;
    if record != "" && record[0] in {'#', '$', '@'} {
      return None;
    }
    if record != "" && record[0] == '=' {
      return Some(Attempt(record[1..], true, false));
    }
    if record != "" && record[0] == '~' {
      return Some(Attempt(record[1..], true, true));
    }
    if record != "" && record[0] == '^' {
      r := InheritedOf(nodes, calls, fields, if caller in nodes then Some(nodes[caller].repo) else None, record[1..]);
      return;
    }
    return Some(Attempt(record, false, false));
  }

  /** Label and targets of one record. */
  method CallOutcomeOf(lib: Lib, nodes: Table, ghost calls: seq<Call>, t: Tables, fields: Fields,
                       served: map<Id, (Option<string>, string)>, caller: Id, record: string)
    returns (metadata: string, r: Resolution)
    requires FqcnOk(lib, nodes, t.byFqcn) && BareOk(lib, nodes, t.byBare)
    requires forall c, f :: FieldsAt(fields, (c, f)) == FieldPairs(nodes, calls, c, f)
    requires forall id :: Find(served, id) == Served(CallsOf(calls, id), HandlerRpc(lib, nodes, calls, id))
    ensures metadata == CallOutcome(lib, nodes, calls, caller, record).0
    ensures Agree(r, CallOutcome(lib, nodes, calls, caller, record).1)
  {
    hide FqcnOk, BareOk, FieldPairs, Served, HandlerRpc, Delegates, IsHealthName, AttemptOf, ResolveCall, ResolveMethod;
    var a := AttemptFor(nodes, calls, fields, caller, record);
    if a.None? {
      return "", Resolution([], Exact);
    }
    var target := a.value.target;
    if IsHealthName(target) {
      return "", Resolution([], Exact);
    }
    if a.value.inferred && a.value.methodLevel && Delegates(Find(served, caller), target) {
      return "", Resolution([], Exact);
    }
    metadata := target;
    var package := if caller in nodes then Some(nodes[caller].package) else None;
    if a.value.methodLevel {
      r := ResolveMethodOf(lib, nodes, t, package, target, a.value.inferred);
    } else {
      r := ResolveCallOf(lib, nodes, t, package, target);
    }
  }

  // ------------------------------------------------------------------ the loop

  ghost function OutcomeAt(lib: Lib, nodes: Table, calls: seq<Call>, j: nat): (string, Outcome)
    requires j < |calls|
  {
    CallOutcome(lib, nodes, calls, calls[j].0, calls[j].1)
  }

  /** Record `j` is the first of its caller to reach `e.to`, and labels the edge. */
  ghost predicate YieldsAt(lib: Lib, nodes: Table, calls: seq<Call>, j: nat, e: Edge)
    requires j < |calls|
  {
    && e.kind == CallsRpc && calls[j].0 == e.from
    && e.to in OutcomeAt(lib, nodes, calls, j).1.ids
    && e.metadata == OutcomeAt(lib, nodes, calls, j).0
    && e.confidence == OutcomeAt(lib, nodes, calls, j).1.confidence
    && forall i :: 0 <= i < j && calls[i].0 == e.from ==> e.to !in OutcomeAt(lib, nodes, calls, i).1.ids
  }

  ghost predicate CalledUpTo(lib: Lib, nodes: Table, calls: seq<Call>, n: nat, log: Log, r: Log)
    requires n <= |calls|
  {
    && (forall k :: k in r.seen <==>
          k in log.seen
          || (k.2 == CallsRpc
             && exists j :: 0 <= j < n && calls[j].0 == k.0 && k.1 in OutcomeAt(lib, nodes, calls, j).1.ids))
    && (forall e :: e in r.edges <==> e in log.edges || exists j :: 0 <= j < n && YieldsAt(lib, nodes, calls, j, e))
  }

  lemma CalledOneMore(lib: Lib, nodes: Table, calls: seq<Call>, n: nat, log: Log, r: Log, r': Log, metadata: string,
        found: Resolution)
    requires n < |calls| && log.Lacks(CallsRpc) && CalledUpTo(lib, nodes, calls, n, log, r)
    requires metadata == OutcomeAt(lib, nodes, calls, n).0 && Agree(found, OutcomeAt(lib, nodes, calls, n).1)
    requires forall k :: k in r'.seen <==> k in r.seen || (k.0 == calls[n].0 && k.1 in found.ids && k.2 == CallsRpc)
    requires forall e ::
      e in r'.edges
      <==> e in r.edges
           || (e == Edge(calls[n].0, e.to, CallsRpc, metadata, found.confidence) && e.to in found.ids
              && KeyOf(e) !in r.seen)
    ensures CalledUpTo(lib, nodes, calls, n + 1, log, r')
  {
    hide OutcomeAt;
    forall e
      ensures e in r'.edges <==> e in log.edges || exists j :: 0 <= j < n + 1 && YieldsAt(lib, nodes, calls, j, e) {
      if e in r'.edges && e !in r.edges {
        assert YieldsAt(lib, nodes, calls, n, e);
      }
      if YieldsAt(lib, nodes, calls, n, e) {
        assert KeyOf(e) !in r.seen;
      }
    }
  }

  lemma NothingCalled(lib: Lib, nodes: Table, calls: seq<Call>, log: Log)
    ensures CalledUpTo(lib, nodes, calls, 0, log, log)
  {
  }

  ghost predicate Yielded(lib: Lib, nodes: Table, calls: seq<Call>, n: nat, e: Edge)
    requires n <= |calls|
  {
    exists j :: 0 <= j < n && YieldsAt(lib, nodes, calls, j, e)
  }

  ghost predicate YieldedBy(lib: Lib, nodes: Table, calls: seq<Call>, records: seq<string>, e: Edge) {
    exists k :: 0 <= k < |records| && CallYields(lib, nodes, calls, records, k, e)
  }

  /** One more record of the caller. */
  lemma OneMoreRecord(lib: Lib, nodes: Table, calls: seq<Call>, before: seq<string>, record: string, e: Edge)
    ensures YieldedBy(lib, nodes, calls, before + [record], e)
       <==> YieldedBy(lib, nodes, calls, before, e) || CallYields(lib, nodes, calls, before + [record], |before|, e)
  {
    hide CallOutcome;
    var records := before + [record];
    forall k | 0 <= k < |before|
      ensures CallYields(lib, nodes, calls, records, k, e) == CallYields(lib, nodes, calls, before, k, e) {
      assert forall i :: 0 <= i <= k ==> records[i] == before[i];
    }
    hide CallYields;
    if YieldedBy(lib, nodes, calls, before, e) {
      var k :| 0 <= k < |before| && CallYields(lib, nodes, calls, before, k, e);
      assert 0 <= k < |records| && CallYields(lib, nodes, calls, records, k, e);
    }
  }

  /** An edge by position in the whole list of calls is an edge by position among the caller's records. */
  lemma {:induction false} YieldsByCaller(lib: Lib, nodes: Table, calls: seq<Call>, n: nat, e: Edge)
    requires n <= |calls| && e.kind == CallsRpc
    ensures Yielded(lib, nodes, calls, n, e) <==> YieldedBy(lib, nodes, calls, CallsOf(calls[..n], e.from), e)
  {
    hide CallOutcome, CallYields, YieldedBy;
    if n == 0 {
      NothingYielded(lib, nodes, calls, e);
    } else {
      var before := CallsOf(calls[..n - 1], e.from);
      assert calls[..n][..n - 1] == calls[..n - 1];
      YieldsByCaller(lib, nodes, calls, n - 1, e);
      assert Yielded(lib, nodes, calls, n, e)
        <==> Yielded(lib, nodes, calls, n - 1, e) || YieldsAt(lib, nodes, calls, n - 1, e);
      if calls[n - 1].0 == e.from {
        OneMoreRecord(lib, nodes, calls, before, calls[n - 1].1, e);
        LastYields(lib, nodes, calls, n - 1, before, e);
        assert CallsOf(calls[..n], e.from) == before + [calls[n - 1].1];
      } else {
        assert CallsOf(calls[..n], e.from) == before;
      }
    }
  }

  lemma NothingYielded(lib: Lib, nodes: Table, calls: seq<Call>, e: Edge)
    ensures !YieldedBy(lib, nodes, calls, CallsOf(calls[..0], e.from), e)
  {
  }

  lemma LastYields(lib: Lib, nodes: Table, calls: seq<Call>, n: nat, before: seq<string>, e: Edge)
    requires n < |calls| && calls[n].0 == e.from && e.kind == CallsRpc && before == CallsOf(calls[..n], e.from)
    ensures YieldsAt(lib, nodes, calls, n, e) <==> CallYields(lib, nodes, calls, before + [calls[n].1], |before|, e)
  {
    hide CallOutcome;
    var records := before + [calls[n].1];
    CallsOfMember(calls[..n], e.from);
    if forall i :: 0 <= i < n && calls[i].0 == e.from ==> e.to !in OutcomeAt(lib, nodes, calls, i).1.ids {
      forall k | 0 <= k < |before| ensures e.to !in CallOutcome(lib, nodes, calls, e.from, records[k]).1.ids {
        assert before[k] in before;
        var i :| 0 <= i < n && calls[..n][i] == (e.from, before[k]);
      }
    }
    if forall k :: 0 <= k < |before| ==> e.to !in CallOutcome(lib, nodes, calls, e.from, records[k]).1.ids {
      forall i | 0 <= i < n && calls[i].0 == e.from ensures e.to !in OutcomeAt(lib, nodes, calls, i).1.ids {
        assert calls[..n][i] in calls[..n];
        var k :| 0 <= k < |before| && before[k] == calls[i].1;
        assert records[k] == before[k];
      }
    }
  }

  method ReconcileCalls(lib: Lib, nodes: Table, bound: nat, calls: seq<Call>, names: map<Id, string>, log: Log)
    returns (r: Log)
    requires Below(nodes, bound) && log.Ok() && log.Lacks(CallsRpc)
    requires forall id :: Find(names, id) == HandlerRpc(lib, nodes, calls, id)
    ensures r.Ok() && log.edges <= r.edges
    ensures forall k :: k in r.seen && k !in log.seen ==> k.2 == CallsRpc
    ensures forall e :: e in r.edges <==> e in log.edges || CallEdge(lib, nodes, calls, e)
  {
    hide FqcnOk, BareOk, FieldPairs, Served, HandlerRpc, CallOutcome, CalledUpTo;
    var tables := BuildTables(lib, nodes, bound);
    var fields := FieldTable(nodes, calls);
    var served := ServedTable(calls, names);
    r := log;
    NothingCalled(lib, nodes, calls, log);
    for i := 0 to |calls|
      invariant r.Ok() && log.edges <= r.edges
      invariant CalledUpTo(lib, nodes, calls, i, log, r)
    {
      var (caller, record) := calls[i];
      var metadata, found := CallOutcomeOf(lib, nodes, calls, tables, fields, served, caller, record);
      ghost var before := r;
      r := EmitTargets(r, caller, found.ids, CallsRpc, metadata, found.confidence);
      CalledOneMore(lib, nodes, calls, i, log, before, r, metadata, found);
    }
    AllCalled(lib, nodes, calls, log, r);
  }

  lemma AllCalled(lib: Lib, nodes: Table, calls: seq<Call>, log: Log, r: Log)
    requires CalledUpTo(lib, nodes, calls, |calls|, log, r)
    ensures forall k :: k in r.seen && k !in log.seen ==> k.2 == CallsRpc
    ensures forall e :: e in r.edges <==> e in log.edges || CallEdge(lib, nodes, calls, e)
  {
    hide OutcomeAt, CallYields;
    assert calls[..|calls|] == calls;
    forall e
      ensures (exists j :: 0 <= j < |calls| && YieldsAt(lib, nodes, calls, j, e)) <==> CallEdge(lib, nodes, calls, e) {
      if e.kind == CallsRpc {
        YieldsByCaller(lib, nodes, calls, |calls|, e);
      }
    }
  }
}
