/** Which nodes a recorded call is linked to, case by case, in terms of how the call and the nodes are spelled. */
module CallCases {
  import opened Text
  import opened GraphModel
  import opened ImportMeaning
  import opened ImportPass
  import opened TopicPass
  import opened Handlers
  import opened Records
  import opened RpcMeaning
  import opened Reconciled
  import opened Graph
  import opened Reload

  // ------------------------------------------------------------------ from records to edges

  /** The call edges of the caller are one to each of these nodes, under this label and confidence. */
  ghost predicate CallsExactly(edges: seq<Edge>, caller: Id, text: string, ids: set<Id>, c: Confidence) {
    forall e: Edge :: e.kind == CallsRpc && e.from == caller ==>
      (e in edges <==> e.to in ids && e.metadata == text && e.confidence == c)
  }

  lemma CallKind(lib: Lib, pre: Table, nodes: Table, bound: nat, f: Facts, edges: seq<Edge>, e: Edge)
    requires DerivedFrom(lib, pre, nodes, bound, f, edges) && e.kind == CallsRpc
    ensures e in edges <==> CallEdge(lib, nodes, f.calls, e)
  {
    hide HandlerOf, MatchConfidence, HubsOk, HubsExact, FactsLive, Hits, Targets, LeastSubject, Wildcard, CallYields;
    assert e in edges <==> DerivedEdge(lib, pre, nodes, f, e);
  }

  /** With one record, the edges are what it stands for. */
  lemma OnlyRecord(lib: Lib, pre: Table, nodes: Table, bound: nat, f: Facts, edges: seq<Edge>, caller: Id, t: string)
    requires DerivedFrom(lib, pre, nodes, bound, f, edges) && CallsOf(f.calls, caller) == [t]
    ensures
      var o := CallOutcome(lib, nodes, f.calls, caller, t);
      CallsExactly(edges, caller, o.0, o.1.ids, o.1.confidence)
  {
    hide CallOutcome, DerivedFrom, CallsOf;
    var o := CallOutcome(lib, nodes, f.calls, caller, t);
    forall e: Edge | e.kind == CallsRpc && e.from == caller
      ensures e in edges <==> e.to in o.1.ids && e.metadata == o.0 && e.confidence == o.1.confidence
    {
      CallKind(lib, pre, nodes, bound, f, edges, e);
      assert CallYields(lib, nodes, f.calls, [t], 0, e) <==>
        e.to in o.1.ids && e.metadata == o.0 && e.confidence == o.1.confidence;
    }
  }

  /** Of several records that reach a node, the first one recorded labels the edge. */
  lemma FirstRecord(lib: Lib, pre: Table, nodes: Table, bound: nat, f: Facts, edges: seq<Edge>, caller: Id, j: nat,
        x: Id)
    requires DerivedFrom(lib, pre, nodes, bound, f, edges) && j < |CallsOf(f.calls, caller)|
    requires
      var records := CallsOf(f.calls, caller);
      && x in CallOutcome(lib, nodes, f.calls, caller, records[j]).1.ids
      && forall i :: 0 <= i < j ==> x !in CallOutcome(lib, nodes, f.calls, caller, records[i]).1.ids
    ensures
      var o := CallOutcome(lib, nodes, f.calls, caller, CallsOf(f.calls, caller)[j]);
      forall e: Edge :: e.kind == CallsRpc && e.from == caller && e.to == x ==>
        (e in edges <==> e == Edge(caller, x, CallsRpc, o.0, o.1.confidence))
  {
    hide CallOutcome, DerivedFrom, CallsOf;
    var records := CallsOf(f.calls, caller);
    var o := CallOutcome(lib, nodes, f.calls, caller, records[j]);
    forall e: Edge | e.kind == CallsRpc && e.from == caller && e.to == x
      ensures e in edges <==> e == Edge(caller, x, CallsRpc, o.0, o.1.confidence)
    {
      CallKind(lib, pre, nodes, bound, f, edges, e);
      if CallEdge(lib, nodes, f.calls, e) {
        var k :| 0 <= k < |records| && CallYields(lib, nodes, f.calls, records, k, e);
        assert k == j;
      }
      if e == Edge(caller, x, CallsRpc, o.0, o.1.confidence) {
        assert CallYields(lib, nodes, f.calls, records, j, e);
      }
    }
  }

  // ------------------------------------------------------------------ candidates

  /** A method of a proto file, or a service, of this full name up to letter case. */
  predicate FullyNamed(lib: Lib, n: Node, t: string) {
    (n.kind == GrpcService || (n.kind == GrpcMethod && lib.isProto(n.file))) && lib.lower(n.name) == lib.lower(t)
  }

  function FullNamed(lib: Lib, nodes: Table, t: string): set<Id> {
    set x | x in nodes && FullyNamed(lib, nodes[x], t)
  }

  /** A method of a proto file whose name is `m`, or ends in `.m`, up to letter case. */
  ghost predicate BarelyNamed(lib: Lib, n: Node, m: string) {
    && n.kind == GrpcMethod && lib.isProto(n.file)
    && exists last: string ::
         '.' !in last && (n.name == last || EndsWith(n.name, "." + last)) && lib.lower(last) == lib.lower(m)
  }

  ghost function BareNamed(lib: Lib, nodes: Table, m: string): set<Id> {
    set x | x in nodes && BarelyNamed(lib, nodes[x], m)
  }

  lemma ListedNames(lib: Lib, nodes: Table, t: string, m: string)
    requires '.' !in m && (t == m || EndsWith(t, "." + m))
    ensures FqcnListed(lib, nodes, lib.lower(t)) == FullNamed(lib, nodes, t)
    ensures BareListed(lib, nodes, lib.lower(LastSegment(t))) == BareNamed(lib, nodes, m)
  {
    hide LastSegment, EndsWith;
    LastSegmentMeans(t, m);
    forall x | x in nodes
      ensures (IsProtoMethod(lib, nodes[x]) && lib.lower(LastSegment(nodes[x].name)) == lib.lower(m))
        <==> BarelyNamed(lib, nodes[x], m)
    {
      LastSegmentMeans(nodes[x].name, LastSegment(nodes[x].name));
      forall last: string { LastSegmentMeans(nodes[x].name, last); }
    }
  }

  /**
   * A lone candidate wins, else the only one of the caller's package; several of it, or none, are shown as ambiguous.
   */
  ghost predicate Chosen(nodes: Table, candidates: set<Id>, package: string, c: Confidence, o: Outcome) {
    var own := set x | x in candidates && x in nodes && nodes[x].package == package;
    && (forall x :: candidates == {x} ==> o == Outcome({x}, c))
    && (forall x :: own == {x} ==> o == Outcome({x}, c))
    && (|candidates| > 1 && own == {} ==> o == Outcome(candidates, Ambiguous))
    && (|own| > 1 ==> o == Outcome(own, Ambiguous))
  }

  lemma ChosenHere(nodes: Table, candidates: set<Id>, package: string, c: Confidence)
    ensures Chosen(nodes, candidates, package, c, ChoosePackage(nodes, candidates, package, c))
    ensures ChoosePackage(nodes, candidates, package, c).ids <= candidates
  {
    var own := set x | x in candidates && x in nodes && nodes[x].package == package;
    assert own <= candidates;
    SubsetSize(own, candidates);
    forall x | own == {x} ensures |own| == 1 && x in candidates {}
    if |candidates| == 1 {
      var x :| x in candidates;
      assert candidates - {x} == {} by { assert |candidates - {x}| == 0; }
      assert candidates == {x};
      assert own == {} || own == {x};
    }
  }

  /**
   * A node of the call's full name is looked for first; only when there is none are the RPCs of that bare name
   * considered.
   */
  lemma FullNameFirst(lib: Lib, nodes: Table, package: string, t: string, m: string)
    requires '.' !in m && (t == m || EndsWith(t, "." + m))
    ensures FullNamed(lib, nodes, t) != {} ==>
      && ResolveTarget(lib, nodes, Some(package), t).ids <= FullNamed(lib, nodes, t)
      && Chosen(nodes, FullNamed(lib, nodes, t), package, Exact, ResolveTarget(lib, nodes, Some(package), t))
    ensures FullNamed(lib, nodes, t) == {} && BareNamed(lib, nodes, m) != {} ==>
      && ResolveTarget(lib, nodes, Some(package), t).ids <= BareNamed(lib, nodes, m)
      && Chosen(nodes, BareNamed(lib, nodes, m), package, Heuristic, ResolveTarget(lib, nodes, Some(package), t))
    ensures FullNamed(lib, nodes, t) == {} && BareNamed(lib, nodes, m) == {} ==>
      ResolveTarget(lib, nodes, Some(package), t).ids == {}
  {
    hide FqcnListed, BareListed, FullNamed, BareNamed, ChoosePackage, Chosen, LastSegment, EndsWith;
    ListedNames(lib, nodes, t, m);
    ChosenHere(nodes, FullNamed(lib, nodes, t), package, Exact);
    ChosenHere(nodes, BareNamed(lib, nodes, m), package, Heuristic);
  }

  // ------------------------------------------------------------------ unprefixed calls

  /** A record that is a call by name: it begins with none of the six prefixes. */
  predicate Unprefixed(t: string) {
    t == "" || !(t[0] in {'#', '$', '@', '=', '~', '^'})
  }

  /** None of the nodes is the stock health service or a method of it. */
  ghost predicate NoHealth(lib: Lib, nodes: Table, ids: set<Id>) {
    forall x :: x in ids && x in nodes ==> !IsHealthService(lib, nodes[x])
  }

  lemma UnprefixedOutcome(lib: Lib, nodes: Table, calls: seq<Call>, caller: Id, t: string)
    requires caller in nodes && Unprefixed(t) && !IsHealthName(t)
    ensures CallOutcome(lib, nodes, calls, caller, t) == (t, ResolveCall(lib, nodes, Some(nodes[caller].package), t))
  {
    hide IsHealthName, ResolveCall, Inherited, HandlerRpc;
  }

  /**
   * When some node carries the call's full name, every target of the call carries it, and with one such node that is
   * the target, exactly: bare names do not matter.
   */
  lemma FullNameCall(lib: Lib, nodes: Table, calls: seq<Call>, caller: Id, t: string)
    requires caller in nodes && Unprefixed(t) && !IsHealthName(t) && FullNamed(lib, nodes, t) != {}
    ensures CallOutcome(lib, nodes, calls, caller, t).0 == t
    ensures CallOutcome(lib, nodes, calls, caller, t).1.ids <= FullNamed(lib, nodes, t)
    ensures NoHealth(lib, nodes, FullNamed(lib, nodes, t)) ==>
      Chosen(nodes, FullNamed(lib, nodes, t), nodes[caller].package, Exact, CallOutcome(lib, nodes, calls, caller, t).1)
  {
    hide IsHealthName, IsHealthService, CallOutcome, FullNamed, BareNamed, ResolveTarget, MayAddService;
    var m := LastSegment(t);
    LastSegmentMeans(t, m);
    UnprefixedOutcome(lib, nodes, calls, caller, t);
    FullNameFirst(lib, nodes, nodes[caller].package, t, m);
    ChosenSome(nodes, FullNamed(lib, nodes, t), nodes[caller].package, Exact,
      ResolveTarget(lib, nodes, Some(nodes[caller].package), t));
    var o := ResolveTarget(lib, nodes, Some(nodes[caller].package), t);
    if NoHealth(lib, nodes, FullNamed(lib, nodes, t)) {
      assert forall x :: x in FullNamed(lib, nodes, t) ==> x in nodes by { NamedLive(lib, nodes, t); }
      assert (set id | id in o.ids && id in nodes && !IsHealthService(lib, nodes[id])) == o.ids;
    }
  }

  lemma NamedLive(lib: Lib, nodes: Table, t: string)
    ensures FullNamed(lib, nodes, t) <= nodes.Keys && forall m :: BareNamed(lib, nodes, m) <= nodes.Keys
  {
  }

  lemma ChosenSome(nodes: Table, candidates: set<Id>, package: string, c: Confidence, o: Outcome)
    requires Chosen(nodes, candidates, package, c, o) && candidates != {}
    ensures o.ids != {}
  {
    var own := set x | x in candidates && x in nodes && nodes[x].package == package;
    var x :| x in candidates;
    if |candidates| == 1 {
      assert |candidates - {x}| == 0;
      assert candidates == {x};
    } else if |own| == 1 {
      var y :| y in own;
      assert |own - {y}| == 0;
      assert own == {y};
    } else {
      assert |candidates| > 1 by { assert |candidates - {x}| == |candidates| - 1; }
      if own == {} {
        assert o == Outcome(candidates, Ambiguous);
      } else {
        var y :| y in own;
        assert |own - {y}| == |own| - 1;
        assert o == Outcome(own, Ambiguous);
      }
    }
  }

  /** With no node of the full name, the RPCs of the bare name are what the call can mean, as a guess. */
  lemma BareNameCall(lib: Lib, nodes: Table, calls: seq<Call>, caller: Id, t: string, m: string)
    requires caller in nodes && Unprefixed(t) && !IsHealthName(t) && FullNamed(lib, nodes, t) == {}
    requires '.' !in m && (t == m || EndsWith(t, "." + m)) && BareNamed(lib, nodes, m) != {}
    ensures CallOutcome(lib, nodes, calls, caller, t).0 == t
    ensures CallOutcome(lib, nodes, calls, caller, t).1.ids <= BareNamed(lib, nodes, m)
    ensures NoHealth(lib, nodes, BareNamed(lib, nodes, m)) ==>
      Chosen(nodes, BareNamed(lib, nodes, m), nodes[caller].package, Heuristic,
        CallOutcome(lib, nodes, calls, caller, t).1)
  {
    hide IsHealthName, IsHealthService, CallOutcome, FullNamed, BareNamed, ResolveTarget, MayAddService;
    UnprefixedOutcome(lib, nodes, calls, caller, t);
    FullNameFirst(lib, nodes, nodes[caller].package, t, m);
    var o := ResolveTarget(lib, nodes, Some(nodes[caller].package), t);
    ChosenSome(nodes, BareNamed(lib, nodes, m), nodes[caller].package, Heuristic, o);
    if NoHealth(lib, nodes, BareNamed(lib, nodes, m)) {
      NamedLive(lib, nodes, t);
      assert (set id | id in o.ids && id in nodes && !IsHealthService(lib, nodes[id])) == o.ids;
    }
  }

  /** `Service` may be appended to names that do not end so and are not the health client's. */
  predicate Extensible(m: string) {
    m != "" && !EndsWith(AsciiLower(m), "service") && AsciiLower(m) != "health"
  }

  lemma ExtensibleMeans(t: string, m: string)
    requires '.' !in m && (t == m || EndsWith(t, "." + m))
    ensures MayAddService(t) <==> Extensible(m)
  {
    hide EndsWith, LastSegment;
    LastSegmentMeans(t, m);
    assert AsciiLower("health") == "health";
  }

  /** A call without any target is tried once more with `Service` appended. */
  lemma ServiceCall(lib: Lib, nodes: Table, calls: seq<Call>, caller: Id, t: string, m: string)
    requires caller in nodes && Unprefixed(t) && !IsHealthName(t) && '.' !in m && (t == m || EndsWith(t, "." + m))
    requires FullNamed(lib, nodes, t) == {} && BareNamed(lib, nodes, m) == {}
    ensures CallOutcome(lib, nodes, calls, caller, t).0 == t
    ensures !Extensible(m) ==> CallOutcome(lib, nodes, calls, caller, t).1.ids == {}
    ensures
      var longer := FullNamed(lib, nodes, t + "Service");
      Extensible(m) && longer != {} ==>
        && CallOutcome(lib, nodes, calls, caller, t).1.ids <= longer
        && (NoHealth(lib, nodes, longer) ==>
              Chosen(nodes, longer, nodes[caller].package, Exact, CallOutcome(lib, nodes, calls, caller, t).1))
  {
    hide IsHealthName, IsHealthService, CallOutcome, FullNamed, BareNamed, ResolveTarget, EndsWith, MayAddService,
         Extensible, Chosen;
    UnprefixedOutcome(lib, nodes, calls, caller, t);
    FullNameFirst(lib, nodes, nodes[caller].package, t, m);
    ExtensibleMeans(t, m);
    var longer := t + "Service";
    var last := LastSegment(longer);
    LastSegmentMeans(longer, last);
    FullNameFirst(lib, nodes, nodes[caller].package, longer, last);
    var o := ResolveTarget(lib, nodes, Some(nodes[caller].package), longer);
    NamedLive(lib, nodes, longer);
    if Extensible(m) && NoHealth(lib, nodes, FullNamed(lib, nodes, longer)) && FullNamed(lib, nodes, longer) != {} {
      assert (set id | id in o.ids && id in nodes && !IsHealthService(lib, nodes[id])) == o.ids;
      assert ResolveCall(lib, nodes, Some(nodes[caller].package), t) == o;
    }
  }

  // ------------------------------------------------------------------ the health service

  /** `grpc.health.v1.Health` in any letter case, alone or with something after a dot. */
  ghost predicate SpelledHealth(t: string, h: string, rest: string) {
    t == h + rest && EqIgnoreCase(h, "grpc.health.v1.health") && (rest == "" || rest[0] == '.')
  }

  lemma HealthNameMeans(t: string)
    ensures IsHealthName(t) <==> exists h, rest :: SpelledHealth(t, h, rest)
  {
    hide AsciiLower;
    if IsHealthName(t) {
      assert SpelledHealth(t, t[..|HEALTH|], t[|HEALTH|..]);
    }
    if h, rest :| SpelledHealth(t, h, rest) {
      assert |AsciiLower(h)| == |h|;
      assert t[..|HEALTH|] == h;
    }
  }

  /** A service named `Health`, or a method of one, in the health package or outside proto files. */
  lemma HealthServiceMeans(lib: Lib, n: Node, q: string, s: string, m: string)
    requires '.' !in s && '.' !in m && (q == "" || EndsWith(q, "."))
    requires (n.kind == GrpcService && n.name == q + s) || (n.kind == GrpcMethod && n.name == q + (s + "." + m))
    ensures IsHealthService(lib, n)
       <==> EqIgnoreCase(s, "health") && (n.package == "grpc.health.v1" || !lib.isProto(n.file))
  {
    hide Split, EndsWith, EqIgnoreCase;
    LastPieces(q, [s]);
    LastPieces(q, [s, m]);
    assert Join([s], '.') == s;
    assert Join([s, m], '.') == s + "." + m;
  }

  /** A split ends in the pieces the text ends in. */
  lemma {:induction false} LastPieces(q: string, parts: seq<string>)
    requires parts != [] && (q == "" || EndsWith(q, ".")) && forall i :: 0 <= i < |parts| ==> '.' !in parts[i]
    ensures
      var r := Split(q + Join(parts, '.'), '.');
      |r| >= |parts| && r[|r| - |parts|..] == parts
    decreases |q|
  {
    if q == "" {
      assert q + Join(parts, '.') == Join(parts, '.');
      SplitJoin(parts);
    } else {
      LastPiecesStep(q, parts);
      var b := SplitOnce(q, '.').value.1;
      LastPieces(b, parts);
    }
  }

  lemma LastPiecesStep(q: string, parts: seq<string>)
    requires parts != [] && q != "" && EndsWith(q, ".")
    ensures SplitOnce(q, '.').Some?
    ensures
      var (a, b) := SplitOnce(q, '.').value;
      && |b| < |q| && (b == "" || EndsWith(b, "."))
      && Split(q + Join(parts, '.'), '.') == [a] + Split(b + Join(parts, '.'), '.')
  {
    hide Join, Split, SplitOnce;
    assert q[|q| - 1..] == "." && q[|q| - 1..][0] == q[|q| - 1];
    var (a, b) := SplitOnce(q, '.').value;
    RestEnds(q, a, b);
    Regroup(a, b, Join(parts, '.'));
    SplitHead(a, '.', b + Join(parts, '.'));
  }

  lemma RestEnds(q: string, a: string, b: string)
    requires q == a + ['.'] + b && EndsWith(q, ".")
    ensures b == "" || EndsWith(b, ".")
  {
    if b != "" {
      assert b[|b| - 1..] == q[|q| - 1..];
    }
  }

  lemma Regroup(a: string, b: string, rest: string)
    ensures (a + ['.'] + b) + rest == a + ['.'] + (b + rest)
  {
  }

  lemma {:induction false} SplitJoin(parts: seq<string>)
    requires parts != [] && forall i :: 0 <= i < |parts| ==> '.' !in parts[i]
    ensures Split(Join(parts, '.'), '.') == parts
  {
    if |parts| == 1 {
      SplitWhole(parts[0], '.');
    } else {
      SplitHead(parts[0], '.', Join(parts[1..], '.'));
      SplitJoin(parts[1..]);
    }
  }

  // ------------------------------------------------------------------ prefixed records

  /** Bindings, constants and decorators are no calls. */
  lemma NoCall(lib: Lib, nodes: Table, calls: seq<Call>, caller: Id, rest: string)
    ensures CallOutcome(lib, nodes, calls, caller, "#" + rest).1.ids == {}
    ensures CallOutcome(lib, nodes, calls, caller, "$" + rest).1.ids == {}
    ensures CallOutcome(lib, nodes, calls, caller, "@" + rest).1.ids == {}
  {
    hide Inherited, Skipped, ResolveCall, ResolveMethod;
  }

  /** `=S.m` means the nodes of exactly that name, and no bare name stands in for it. */
  lemma ExactCall(lib: Lib, nodes: Table, calls: seq<Call>, caller: Id, t: string)
    requires caller in nodes && !IsHealthName(t)
    ensures CallOutcome(lib, nodes, calls, caller, "=" + t).0 == t
    ensures CallOutcome(lib, nodes, calls, caller, "=" + t).1.ids <= FullNamed(lib, nodes, t)
    ensures Chosen(nodes, FullNamed(lib, nodes, t), nodes[caller].package, Exact,
      CallOutcome(lib, nodes, calls, caller, "=" + t).1)
  {
    hide IsHealthName, ResolveCall, Inherited, HandlerRpc, Chosen, ChoosePackage;
    MethodOutcome(lib, nodes, nodes[caller].package, t, false);
    assert ("=" + t)[1..] == t;
    assert AttemptOf(nodes, calls, caller, "=" + t) == Some(Attempt(t, true, false));
  }

  lemma MethodOutcome(lib: Lib, nodes: Table, package: string, t: string, inferred: bool)
    ensures ResolveMethod(lib, nodes, Some(package), t, inferred).ids <= FullNamed(lib, nodes, t)
    ensures Chosen(nodes, FullNamed(lib, nodes, t), package, if inferred then Heuristic else Exact,
                   ResolveMethod(lib, nodes, Some(package), t, inferred))
  {
    hide FqcnListed, FullNamed, ChoosePackage, Chosen, LastSegment;
    LastSegmentMeans(t, LastSegment(t));
    ListedNames(lib, nodes, t, LastSegment(t));
    ChosenHere(nodes, FullNamed(lib, nodes, t), package, if inferred then Heuristic else Exact);
  }

  /** `~S.m` is the same as a guess, unless it is made inside the handler of that very RPC. */
  lemma GuessedCall(lib: Lib, nodes: Table, calls: seq<Call>, caller: Id, t: string)
    requires caller in nodes && !IsHealthName(t)
    ensures
      var served := Served(CallsOf(calls, caller), HandlerRpc(lib, nodes, calls, caller));
      var o := CallOutcome(lib, nodes, calls, caller, "~" + t);
      if Delegates(served, t) then o.1.ids == {}
      else
        && o.0 == t && o.1.ids <= FullNamed(lib, nodes, t)
        && Chosen(nodes, FullNamed(lib, nodes, t), nodes[caller].package, Heuristic, o.1)
  {
    hide IsHealthName, ResolveCall, Inherited, HandlerRpc, Chosen, ChoosePackage, Served, Delegates;
    MethodOutcome(lib, nodes, nodes[caller].package, t, true);
    assert ("~" + t)[1..] == t;
    assert AttemptOf(nodes, calls, caller, "~" + t) == Some(Attempt(t, true, true));
  }

  /** A call to the stock health service, by either kind of name, is no edge. */
  lemma HealthCall(lib: Lib, nodes: Table, calls: seq<Call>, caller: Id, t: string)
    requires IsHealthName(t)
    ensures Unprefixed(t) ==> CallOutcome(lib, nodes, calls, caller, t).1.ids == {}
    ensures CallOutcome(lib, nodes, calls, caller, "=" + t).1.ids == {}
    ensures CallOutcome(lib, nodes, calls, caller, "~" + t).1.ids == {}
  {
    hide IsHealthName, ResolveCall, ResolveMethod, Inherited, HandlerRpc, Served, Delegates;
    assert ("=" + t)[1..] == t && ("~" + t)[1..] == t;
    assert AttemptOf(nodes, calls, caller, "=" + t) == Some(Attempt(t, true, false));
    assert AttemptOf(nodes, calls, caller, "~" + t) == Some(Attempt(t, true, true));
  }

  /** `#field=service`, recorded by a live node named `class_` of the repository. */
  ghost predicate BoundIn(nodes: Table, calls: seq<Call>, class_: string, field: string, service: string, repo: nat) {
    exists c: Call :: c in calls && c.0 in nodes && nodes[c.0].name == class_ && nodes[c.0].repo == repo
      && c.1 == "#" + field + "=" + service
  }

  lemma BoundPairs(nodes: Table, calls: seq<Call>, class_: string, field: string, p: Recorded)
    requires '=' !in field
    ensures p in FieldPairs(nodes, calls, class_, field) <==> BoundIn(nodes, calls, class_, field, p.1, p.0)
  {
    hide SplitOnce;
    if p in FieldPairs(nodes, calls, class_, field) {
      var c :| c in calls && c.0 in nodes && nodes[c.0].name == class_ && Assignment(c.1, '#').Some?
        && Assignment(c.1, '#').value.0 == field && p == (nodes[c.0].repo, Assignment(c.1, '#').value.1);
      assert c.1 == [c.1[0]] + c.1[1..];
      assert c.1 == "#" + field + "=" + p.1;
    }
    if BoundIn(nodes, calls, class_, field, p.1, p.0) {
      var c: Call :| c in calls && c.0 in nodes && nodes[c.0].name == class_ && nodes[c.0].repo == p.0
        && c.1 == "#" + field + "=" + p.1;
      assert c.1[1..] == field + "=" + p.1;
      SplitOnceAt(field, '=', p.1);
      assert Assignment(c.1, '#') == Some((field, p.1));
    }
  }

  /**
   * `^Base#field.m`, where the class `Base` of the caller's repository binds the field to one service: the call means
   * that service's method `m`, exactly.
   */
  lemma InheritedCall(lib: Lib, nodes: Table, calls: seq<Call>, caller: Id, base: string, field: string, m: string,
                      service: string)
    requires caller in nodes && '#' !in base && '.' !in field && '=' !in field && service != ""
    requires !IsHealthName(service + "." + m)
    requires BoundIn(nodes, calls, base, field, service, nodes[caller].repo)
    requires forall s :: BoundIn(nodes, calls, base, field, s, nodes[caller].repo) ==> s == service
    ensures
      var t := service + "." + m;
      var o := CallOutcome(lib, nodes, calls, caller, "^" + base + "#" + field + "." + m);
      o.0 == t && o.1.ids <= FullNamed(lib, nodes, t)
      && Chosen(nodes, FullNamed(lib, nodes, t), nodes[caller].package, Exact, o.1)
  {
    hide IsHealthName, ResolveCall, HandlerRpc, Chosen, ChoosePackage, FieldPairs, SplitOnce, ResolveMethod, BoundIn;
    var repo, t := nodes[caller].repo, service + "." + m;
    MethodOutcome(lib, nodes, nodes[caller].package, t, false);
    var record := "^" + base + "#" + field + "." + m;
    assert record[1..] == base + ['#'] + (field + "." + m);
    SplitOnceAt(base, '#', field + "." + m);
    SplitOnceAt(field, '.', m);
    var pairs := FieldPairs(nodes, calls, base, field);
    forall p: Recorded { BoundPairs(nodes, calls, base, field, p); }
    var mine := set p | p in pairs && Some(p.0) == Some(repo) :: p.1;
    assert (repo, service) in pairs;
    assert mine == {service};
    assert Preferred(pairs, Some(repo)) == {service};
    assert {service} - {""} == {service};
    OnlyOne(service);
    assert Inherited(nodes, calls, Some(repo), record[1..]) == Some(Attempt(t, true, false));
  }

  lemma OnlyOne(v: string)
    ensures TheOnly({v}) == Some(v)
  {
    assert v in {v};
    var u :| {v} == {u};
    assert u in {v};
  }

  /** `fooService` and `fooClient` are guessed to be `FooService`. */
  lemma FieldService(c: char, u: char, s: string)
    requires 'A' <= u <= 'Z' && AsciiLowerChar(u) == c
    ensures ServiceFromField([c] + s + "Service") == Some([u] + s + "Service")
    ensures ServiceFromField([c] + s + "Client") == Some([u] + s + "Service")
  {
    var a, b := [c] + s + "Service", [c] + s + "Client";
    assert a[|a| - 7..] == "Service" && a[..|a| - 7] == [c] + s;
    assert b[|b| - 6..] == "Client" && b[..|b| - 6] == [c] + s;
    assert a[|a| - 6..][0] != "Client"[0];
  }

  // ------------------------------------------------------------------ the edges

  /**
   * An edge labelled by a text that some node carries as its full name leads to a node that does: no edge is made by
   * bare name where the full name is declared.
   */
  lemma LabelledByFullName(lib: Lib, pre: Table, nodes: Table, bound: nat, f: Facts, edges: seq<Edge>, e: Edge)
    requires DerivedFrom(lib, pre, nodes, bound, f, edges) && e in edges && e.kind == CallsRpc
    requires FullNamed(lib, nodes, e.metadata) != {}
    ensures e.to in FullNamed(lib, nodes, e.metadata)
  {
    hide DerivedFrom, CallOutcome, FullNamed;
    CallKind(lib, pre, nodes, bound, f, edges, e);
    var records := CallsOf(f.calls, e.from);
    var j :| 0 <= j < |records| && CallYields(lib, nodes, f.calls, records, j, e);
    assert records[j] in records;
    CallsOfMember(f.calls, e.from);
    CallerLive(lib, pre, nodes, bound, f, edges, e.from, records[j]);
    OutcomeByFullName(lib, nodes, f.calls, e.from, records[j]);
  }

  lemma CallerLive(lib: Lib, pre: Table, nodes: Table, bound: nat, f: Facts, edges: seq<Edge>, caller: Id, r: string)
    requires DerivedFrom(lib, pre, nodes, bound, f, edges) && (caller, r) in f.calls
    ensures caller in nodes
  {
    hide DerivedEdge, HubsOk, HubsExact;
    var i :| 0 <= i < |f.calls| && f.calls[i] == (caller, r);
    assert f.calls[i].0 in Sources(nodes);
  }

  lemma OutcomeByFullName(lib: Lib, nodes: Table, calls: seq<Call>, caller: Id, r: string)
    requires caller in nodes
    ensures
      var o := CallOutcome(lib, nodes, calls, caller, r);
      o.1.ids != {} && FullNamed(lib, nodes, o.0) != {} ==> o.1.ids <= FullNamed(lib, nodes, o.0)
  {
    hide FullNamed, ResolveMethod, ResolveCall, AttemptOf, Skipped, IsHealthName;
    var a := AttemptOf(nodes, calls, caller, r);
    if a.Some? && !Skipped(lib, nodes, calls, caller, a.value) {
      MethodOutcome(lib, nodes, nodes[caller].package, a.value.target, a.value.inferred);
      if !a.value.methodLevel {
        NamedCall(lib, nodes, calls, caller, r);
        if FullNamed(lib, nodes, r) != {} {
          FullNameCall(lib, nodes, calls, caller, r);
        }
      }
    }
  }

  lemma NamedCall(lib: Lib, nodes: Table, calls: seq<Call>, caller: Id, r: string)
    requires
      var a := AttemptOf(nodes, calls, caller, r);
      a.Some? && !a.value.methodLevel && !Skipped(lib, nodes, calls, caller, a.value)
    ensures Unprefixed(r) && !IsHealthName(r) && AttemptOf(nodes, calls, caller, r).value.target == r
  {
    hide IsHealthName, HandlerRpc, Served, Delegates;
  }

  /** A lone record whose full name one node carries is one edge, to that node, exactly. */
  lemma FullNameEdge(lib: Lib, pre: Table, nodes: Table, bound: nat, f: Facts, edges: seq<Edge>, caller: Id, t: string,
                     x: Id)
    requires DerivedFrom(lib, pre, nodes, bound, f, edges) && CallsOf(f.calls, caller) == [t] && caller in nodes
    requires Unprefixed(t) && !IsHealthName(t) && FullNamed(lib, nodes, t) == {x} && NoHealth(lib, nodes, {x})
    ensures CallsExactly(edges, caller, t, {x}, Exact)
  {
    hide DerivedFrom, CallOutcome, FullNamed, IsHealthName, CallsExactly, NoHealth;
    OnlyRecord(lib, pre, nodes, bound, f, edges, caller, t);
    FullNameCall(lib, nodes, f.calls, caller, t);
  }

  /**
   * A lone record of an undeclared full name is one guessed edge when one RPC has the bare name, and several when tied.
   */
  lemma BareNameEdges(lib: Lib, pre: Table, nodes: Table, bound: nat, f: Facts, edges: seq<Edge>, caller: Id, t: string,
                      m: string)
    requires DerivedFrom(lib, pre, nodes, bound, f, edges) && CallsOf(f.calls, caller) == [t] && caller in nodes
    requires Unprefixed(t) && !IsHealthName(t) && FullNamed(lib, nodes, t) == {} && '.' !in m
    requires t == m || EndsWith(t, "." + m)
    requires NoHealth(lib, nodes, BareNamed(lib, nodes, m))
    ensures
      var found := BareNamed(lib, nodes, m);
      var own := set x | x in found && x in nodes && nodes[x].package == nodes[caller].package;
      && (forall x :: found == {x} || own == {x} ==> CallsExactly(edges, caller, t, {x}, Heuristic))
      && (|own| > 1 ==> CallsExactly(edges, caller, t, own, Ambiguous))
      && (|found| > 1 && own == {} ==> CallsExactly(edges, caller, t, found, Ambiguous))
  {
    hide DerivedFrom, CallOutcome, FullNamed, BareNamed, IsHealthName, CallsExactly, NoHealth, EndsWith;
    OnlyRecord(lib, pre, nodes, bound, f, edges, caller, t);
    if BareNamed(lib, nodes, m) != {} {
      BareNameCall(lib, nodes, f.calls, caller, t, m);
    }
  }

  // ------------------------------------------------------------------ delegation

  /** Only ASCII letters and digits of a method's name count, letters in lower case. */
  lemma {:induction false} FoldJoin(a: string, b: string)
    ensures FoldRpcName(a + b) == FoldRpcName(a) + FoldRpcName(b)
    ensures forall c ::
      FoldRpcName([c]) == if 'a' <= c <= 'z' || 'A' <= c <= 'Z' || '0' <= c <= '9' then [AsciiLowerChar(c)] else ""
  {
    if a == "" {
      assert a + b == b;
    } else {
      assert (a + b)[1..] == a[1..] + b && (a + b)[0] == a[0];
      FoldJoin(a[1..], b);
    }
    assert forall c :: [c][1..] == "";
  }

  /** A guess of `s.m` delegates what the handler serves when service and method are the same, cases apart. */
  lemma DelegatesMeans(service: string, method_: string, q: string, s: string, m: string)
    requires '.' !in s && '.' !in m && (q == "" || EndsWith(q, "."))
    ensures Delegates(Some((Some(service), method_)), q + s + "." + m)
       <==> AsciiLower(service) == AsciiLower(s) && method_ == FoldRpcName(m)
  {
    hide FoldRpcName, AsciiLower, RSplitOnce, LastSegment;
    RSplitOnceAt(q + s, '.', m);
    LastSegmentMeans(q + s, s);
    if q != "" {
      assert q == q[..|q| - 1] + ".";
      assert q + s == q[..|q| - 1] + ("." + s);
      assert (q + s)[|q + s| - |"." + s|..] == "." + s;
    } else {
      assert q + s == s;
    }
  }

  /** A handler whose decorator names the RPC `s.m` serves it. */
  lemma ServedRpc(reference: string, q: string, m: string)
    requires '.' !in m
    ensures ServedBy(reference, Some(q + "." + m)) == Some((Some(q), FoldRpcName(m)))
  {
    RSplitOnceAt(q, '.', m);
  }

  lemma {:induction false} LastServed(first: seq<string>, reference: string, rest: seq<string>,
        resolved: Option<string>)
    requires ServedBy(reference, resolved).Some? && forall i :: 0 <= i < |rest| ==> rest[i] == "" || rest[i][0] != '@'
    ensures Served(first + ["@" + reference] + rest, resolved) == ServedBy(reference, resolved)
  {
    hide ServedBy;
    var all := first + ["@" + reference] + rest;
    if rest == [] {
      assert all[|all| - 1] == "@" + reference && ("@" + reference)[1..] == reference;
    } else {
      var init := rest[..|rest| - 1];
      assert all[..|all| - 1] == first + ["@" + reference] + init && all[|all| - 1] == rest[|rest| - 1];
      LastServed(first, reference, init, resolved);
    }
  }

  /** Text that neither begins nor ends with a quote or a question mark. */
  predicate Bare(s: string) {
    s != "" && !IsQuote(s[0]) && s[0] != '?' && !IsQuote(s[|s| - 1]) && s[|s| - 1] != '?'
  }

  lemma UnquoteMeans(quote: char, s: string)
    requires quote in {'\'', '"', '`'} && Bare(s)
    ensures Unquote([quote] + s + [quote]) == s
  {
    var t := [quote] + s + [quote];
    assert t[1..] == s + [quote];
    assert (s + [quote])[0] == s[0];
    assert TrimStart(s + [quote]) == s + [quote];
    assert IsQuote(t[0]) && TrimStart(t) == s + [quote];
    var u := s + [quote];
    assert u[..|u| - 1] == s && u[|u| - 1] == quote;
    assert TrimEnd(u) == TrimEnd(s) == s;
  }

  /** A decorator that resolves to no RPC still says what is served: a quoted service, and a method. */
  lemma ServedSpelled(quote: char, q: string, s: string, m: string)
    requires quote in {'\'', '"', '`'} && (q == "" || EndsWith(q, ".")) && Bare(q + s) && Bare(m)
    requires '.' !in s && '.' !in m && '|' !in q && '|' !in s && '|' !in m
    ensures ServedBy([quote] + (q + s) + [quote] + "|" + ([quote] + m + [quote]), None)
      == Some((Some(s), FoldRpcName(m)))
  {
    hide Unquote, FoldRpcName, LastSegment, HandlerRef;
    var e1, e2 := [quote] + (q + s) + [quote], [quote] + m + [quote];
    UnquoteMeans(quote, q + s);
    UnquoteMeans(quote, m);
    LastSegmentMeans(q + s, s);
    LastSegmentMeans(m, m);
    QualifiedEnds(q, s);
    HandlerParts(e1, e2);
    assert e1[0] == quote && IsQuote(quote);
  }

  lemma QualifiedEnds(q: string, s: string)
    requires q == "" || EndsWith(q, ".")
    ensures q + s == s || EndsWith(q + s, "." + s)
  {
    if q != "" {
      assert q == q[..|q| - 1] + ".";
      assert (q + s)[|q + s| - |"." + s|..] == "." + s;
    } else {
      assert q + s == s;
    }
  }

  lemma HandlerParts(e1: string, e2: string)
    requires '|' !in e1 && '|' !in e2
    ensures HandlerRef(e1 + "|" + e2) == Some((e1, e2))
  {
    hide SplitOnce, Split;
    SplitOnceAt(e1, '|', e2);
    SplitWhole(e2, '|');
  }

  // ------------------------------------------------------------------ corner cases

  /** An unprefixed call never reaches the stock health service. */
  lemma HealthUnreached(lib: Lib, nodes: Table, calls: seq<Call>, caller: Id, t: string)
    requires Unprefixed(t)
    ensures forall x :: x in CallOutcome(lib, nodes, calls, caller, t).1.ids ==>
      x in nodes && !IsHealthService(lib, nodes[x])
  {
    hide IsHealthName, IsHealthService, ResolveTarget, MayAddService, Inherited, HandlerRpc, Served, Delegates;
  }

  /** Without a package to compare, a full name is still exact, and a bare one ambiguous. */
  lemma UnownedTarget(lib: Lib, nodes: Table, t: string, m: string)
    requires '.' !in m && (t == m || EndsWith(t, "." + m))
    ensures FullNamed(lib, nodes, t) != {} ==>
      ResolveTarget(lib, nodes, None, t) == Outcome(FullNamed(lib, nodes, t), Exact)
    ensures FullNamed(lib, nodes, t) == {} && BareNamed(lib, nodes, m) != {} ==>
      ResolveTarget(lib, nodes, None, t) == Outcome(BareNamed(lib, nodes, m), Ambiguous)
  {
    hide FqcnListed, BareListed, FullNamed, BareNamed, LastSegment, EndsWith;
    ListedNames(lib, nodes, t, m);
  }

  /** `^Base#field.m`, where the class is bound to nothing but empty services: no call. */
  lemma EmptyBinding(lib: Lib, nodes: Table, calls: seq<Call>, caller: Id, base: string, field: string, m: string)
    requires caller in nodes && '#' !in base && '.' !in field && '=' !in field
    requires BoundIn(nodes, calls, base, field, "", nodes[caller].repo)
    requires forall s :: BoundIn(nodes, calls, base, field, s, nodes[caller].repo) ==> s == ""
    ensures CallOutcome(lib, nodes, calls, caller, "^" + base + "#" + field + "." + m).1.ids == {}
  {
    hide Skipped, ResolveCall, FieldPairs, SplitOnce, ResolveMethod, BoundIn;
    InheritedParts(base, field, m);
    InheritedValues(nodes, calls, base, field, nodes[caller].repo, {""});
    assert {""} - {""} == {};
  }

  /**
   * `^Base#field.m`, where no live class of that name binds the field: the service is guessed from the field's name.
   */
  lemma GuessedBinding(lib: Lib, nodes: Table, calls: seq<Call>, caller: Id, base: string, field: string, m: string,
                       service: string)
    requires caller in nodes && '#' !in base && '.' !in field && '=' !in field
    requires forall s, repo: nat :: !BoundIn(nodes, calls, base, field, s, repo)
    requires ServiceFromField(field) == Some(service)
    ensures AttemptOf(nodes, calls, caller, "^" + base + "#" + field + "." + m)
         == Some(Attempt(service + "." + m, true, true))
  {
    hide FieldPairs, SplitOnce, BoundIn, ServiceFromField;
    InheritedParts(base, field, m);
    var pairs := FieldPairs(nodes, calls, base, field);
    forall p: Recorded { BoundPairs(nodes, calls, base, field, p); }
    assert pairs == {};
    assert Preferred(pairs, Some(nodes[caller].repo)) == {};
    var none: set<string> := {};
    assert none - {""} == {};
    NoOnly(none);
  }

  lemma NoOnly(s: set<string>)
    requires s == {}
    ensures TheOnly(s).None?
  {
    forall v ensures s != {v} { assert v in {v}; }
  }

  lemma InheritedParts(base: string, field: string, m: string)
    requires '#' !in base && '.' !in field
    ensures
      var record := "^" + base + "#" + field + "." + m;
      && record[0] == '^' && SplitOnce(record[1..], '#') == Some((base, field + "." + m))
      && SplitOnce(field + "." + m, '.') == Some((field, m))
  {
    hide SplitOnce;
    var record := "^" + base + "#" + field + "." + m;
    assert record[1..] == base + ['#'] + (field + "." + m);
    SplitOnceAt(base, '#', field + "." + m);
    SplitOnceAt(field, '.', m);
  }

  lemma InheritedValues(nodes: Table, calls: seq<Call>, base: string, field: string, repo: nat, values: set<string>)
    requires '=' !in field && values != {} && forall s :: BoundIn(nodes, calls, base, field, s, repo) <==> s in values
    ensures Preferred(FieldPairs(nodes, calls, base, field), Some(repo)) == values
  {
    hide FieldPairs, BoundIn;
    var pairs := FieldPairs(nodes, calls, base, field);
    forall p: Recorded { BoundPairs(nodes, calls, base, field, p); }
    var mine := set p | p in pairs && Some(p.0) == Some(repo) :: p.1;
    forall s ensures s in mine <==> s in values {
      assert (repo, s) in pairs <==> BoundIn(nodes, calls, base, field, s, repo);
    }
    assert mine == values;
  }
}
