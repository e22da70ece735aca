/** What handler and RPC-call records resolve to, read off the node table and the records alone. */
module RpcMeaning {
  import opened Text
  import opened GraphModel
  import opened ImportMeaning
  import opened Handlers
  import opened Records

  // ------------------------------------------------------------------ constants and client fields

  /** A value and the repository it was recorded in. */
  type Recorded = (nat, string)

  function ConstPairs(nodes: Table, calls: seq<Call>, key: string): set<Recorded> {
    set c | c in calls && c.0 in nodes && Assignment(c.1, '$').Some? && Assignment(c.1, '$').value.0 == key
      :: (nodes[c.0].repo, Assignment(c.1, '$').value.1)
  }

  function FieldPairs(nodes: Table, calls: seq<Call>, class_: string, field: string): set<Recorded> {
    set c | c in calls && c.0 in nodes && nodes[c.0].name == class_ && Assignment(c.1, '#').Some? && Assignment(c.1,
      '#').value.0 == field
      :: (nodes[c.0].repo, Assignment(c.1, '#').value.1)
  }

  /** The values of the given repository if it has any, else all of them. */
  function Preferred(pairs: set<Recorded>, repo: Option<nat>): set<string> {
    var own := set p | p in pairs && Some(p.0) == repo :: p.1;
    if own == {} then set p | p in pairs :: p.1 else own
  }

  ghost function TheOnly(s: set<string>): Option<string> {
    if exists v :: s == {v} then
      var v :| s == {v};
      Some(v)
    else None
  }

  /** A quoted literal, or the one string constant the expression names. */
  ghost function Literal(lib: Lib, nodes: Table, calls: seq<Call>, raw: string, repo: nat): Option<string> {
    var expr := lib.trim(raw);
    if IsQuoted(expr) then
      if expr[1..|expr| - 1] != "" then Some(expr[1..|expr| - 1]) else None
    else TheOnly(Preferred(ConstPairs(nodes, calls, expr), Some(repo)))
  }

  // ------------------------------------------------------------------ handlers

  predicate IsProtoMethod(lib: Lib, n: Node) {
    n.kind.GrpcMethod? && lib.isProto(n.file)
  }

  predicate IsHandler(lib: Lib, n: Node) {
    && Grpc(n.kind) && !lib.isProto(n.file)
    && !("rpc:" <= n.name) && !("produce:" <= n.name) && !("consume:" <= n.name)
  }

  /** The proto methods of exactly this name, in the given package if one is named. */
  function ProtoNamed(lib: Lib, nodes: Table, name: string, package: Option<string>): set<Id> {
    set id | id in nodes && IsProtoMethod(lib, nodes[id]) && nodes[id].name == name
             && (package.Some? ==> nodes[id].package == package.value)
  }

  /** The `Service.Method` a handler record resolves to, when exactly one proto RPC declares it. */
  ghost function RefTarget(lib: Lib, nodes: Table, calls: seq<Call>, repo: nat, reference: string): Option<string> {
    match HandlerRef(reference)
    case None => None
    case Some((serviceExpr, rpcExpr)) =>
      var service := Literal(lib, nodes, calls, serviceExpr, repo);
      var rpc := Literal(lib, nodes, calls, rpcExpr, repo);
      if service.None? || rpc.None? then None
      else
        var (package, bare) :=
          match RSplitOnce(service.value, '.') case Some((q, s)) => (Some(q), s) case None => (None, service.value);
        var name := bare + "." + rpc.value;
        if |ProtoNamed(lib, nodes, name, package)| == 1 then Some(name) else None
  }

  /** The last handler record that resolves wins. */
  ghost function LastTarget(lib: Lib, nodes: Table, calls: seq<Call>, repo: nat, records: seq<string>): Option<string> {
    if records == [] then None
    else
      var last := StripPrefix(records[|records| - 1], '@');
      if last.Some?
        && RefTarget(lib, nodes, calls, repo, last.value).Some? then RefTarget(lib, nodes, calls, repo, last.value)
      else LastTarget(lib, nodes, calls, repo, records[..|records| - 1])
  }

  /** The proto RPC a node's decorator resolves to. */
  ghost function HandlerRpc(lib: Lib, nodes: Table, calls: seq<Call>, id: Id): Option<string> {
    if id in nodes then LastTarget(lib, nodes, calls, nodes[id].repo, CallsOf(calls, id)) else None
  }

  /** The handler a node presents to the match predicate. */
  ghost function HandlerOf(lib: Lib, nodes: Table, calls: seq<Call>, id: Id): Handler
    requires id in nodes
  {
    var rpc := HandlerRpc(lib, nodes, calls, id);
    var name := if rpc.Some? then rpc.value else nodes[id].name;
    Handler(id, name, lib.pascal(name), nodes[id].signature)
  }

  /** A handler implements every proto method the five-way predicate pairs it with. */
  ghost predicate ImplementsEdge(lib: Lib, nodes: Table, calls: seq<Call>, e: Edge) {
    && e.kind == Implements
    && e.from in nodes && IsHandler(lib, nodes[e.from])
    && e.to in nodes && IsProtoMethod(lib, nodes[e.to])
    && e.metadata == nodes[e.to].name
    && MatchConfidence(lib, HandlerOf(lib, nodes, calls, e.from), nodes[e.to].name) == Some(e.confidence)
  }

  // ------------------------------------------------------------------ calls

  /** Proto methods and declared services of this full name, folded to lower case. */
  function FqcnListed(lib: Lib, nodes: Table, key: string): set<Id> {
    set id | id in nodes && (IsProtoMethod(lib, nodes[id])
      || nodes[id].kind.GrpcService?) && lib.lower(nodes[id].name) == key
  }

  /** Proto methods of this bare name, folded to lower case. */
  function BareListed(lib: Lib, nodes: Table, key: string): set<Id> {
    set id | id in nodes && IsProtoMethod(lib, nodes[id]) && lib.lower(LastSegment(nodes[id].name)) == key
  }

  /** One candidate, or exactly one of the caller's package, wins; otherwise the tie is reported whole. */
  function ChoosePackage(nodes: Table, s: set<Id>, package: string, c: Confidence): Outcome {
    var same := set id | id in s && id in nodes && nodes[id].package == package;
    if |s| == 1 then Outcome(s, c)
    else if |same| == 1 then Outcome(same, c)
    else if same == {} then Outcome(s, Ambiguous)
    else Outcome(same, Ambiguous)
  }

  /** `unowned` is the confidence when the caller has no package to compare. */
  function PickPackage(nodes: Table, s: set<Id>, package: Option<string>, c: Confidence, unowned: Confidence): Outcome {
    match package
    case Some(p) => ChoosePackage(nodes, s, p, c)
    case None => Outcome(s, unowned)
  }

  function ResolveTarget(lib: Lib, nodes: Table, package: Option<string>, target: string): Outcome {
    var full := FqcnListed(lib, nodes, lib.lower(target));
    var bare := BareListed(lib, nodes, lib.lower(LastSegment(target)));
    if full != {} then PickPackage(nodes, full, package, Exact, Exact)
    else if bare != {} then PickPackage(nodes, bare, package, Heuristic, Ambiguous)
    else Outcome({}, Exact)
  }

  /** `<X>` may be spelled for `<X>Service`, except for the stock health client. */
  predicate MayAddService(target: string) {
    var bare := LastSegment(target);
    bare != "" && !EndsWith(AsciiLower(bare), "service") && !EqIgnoreCase(bare, "health")
  }

  /** A service-level or bare call. */
  function ResolveCall(lib: Lib, nodes: Table, package: Option<string>, target: string): Outcome {
    var literal := ResolveTarget(lib, nodes, package, target);
    var o := if literal.ids == {}
      && MayAddService(target) then ResolveTarget(lib, nodes, package, target + "Service") else literal;
    Outcome((set id | id in o.ids && id in nodes && !IsHealthService(lib, nodes[id])), o.confidence)
  }

  /** A call by exact `Service.Method` only. */
  function ResolveMethod(lib: Lib, nodes: Table, package: Option<string>, target: string, inferred: bool): Outcome {
    var c := if inferred then Heuristic else Exact;
    PickPackage(nodes, FqcnListed(lib, nodes, lib.lower(target)), package, c, c)
  }

  datatype Attempt = Attempt(target: string, methodLevel: bool, inferred: bool)

  /** `Base#field.method`: the base class's binding of the field, or a guess from the field's name. */
  ghost function Inherited(nodes: Table, calls: seq<Call>, repo: Option<nat>, record: string): Option<Attempt> {
    match SplitOnce(record, '#')
    case None => None
    case Some((base, rest)) =>
      match SplitOnce(rest, '.')
      case None => None
      case Some((field, rpc)) =>
        var services := Preferred(FieldPairs(nodes, calls, base, field), repo);
        var named := TheOnly(services - {""});
        if services != {} && services - {""} == {} then None
        else if named.Some? then Some(Attempt(named.value + "." + rpc, true, false))
        else
          match ServiceFromField(field)
          case Some(service) => Some(Attempt(service + "." + rpc, true, true))
          case None => None
  }

  /** The call a record stands for, if it stands for one. */
  ghost function AttemptOf(nodes: Table, calls: seq<Call>, caller: Id, record: string): Option<Attempt> {
    if record != "" && record[0] in {'#', '$', '@'} then None
    else if record != "" && record[0] == '=' then Some(Attempt(record[1..], true, false))
    else if record != "" && record[0] == '~' then Some(Attempt(record[1..], true, true))
    else if record != "" && record[0] == '^' then
      Inherited(nodes, calls, if caller in nodes then Some(nodes[caller].repo) else None, record[1..])
    else Some(Attempt(record, false, false))
  }

  ghost predicate Skipped(lib: Lib, nodes: Table, calls: seq<Call>, caller: Id, a: Attempt) {
    || IsHealthName(a.target)
    || (a.inferred && a.methodLevel
       && Delegates(Served(CallsOf(calls, caller), HandlerRpc(lib, nodes, calls, caller)), a.target))
  }

  /** What one record links its caller to, and under which label. */
  ghost function CallOutcome(lib: Lib, nodes: Table, calls: seq<Call>, caller: Id, record: string): (string, Outcome) {
    var a := AttemptOf(nodes, calls, caller, record);
    if a.None? || Skipped(lib, nodes, calls, caller, a.value) then ("", Outcome({}, Exact))
    else
      var package := if caller in nodes then Some(nodes[caller].package) else None;
      (a.value.target,
       if a.value.methodLevel then ResolveMethod(lib, nodes, package, a.value.target, a.value.inferred)
       else ResolveCall(lib, nodes, package, a.value.target))
  }

  /** The first record of a caller that reaches a node labels the edge. */
  ghost predicate CallEdge(lib: Lib, nodes: Table, calls: seq<Call>, e: Edge) {
    var records := CallsOf(calls, e.from);
    && e.kind == CallsRpc
    && exists j :: 0 <= j < |records| && CallYields(lib, nodes, calls, records, j, e)
  }

  ghost predicate CallYields(lib: Lib, nodes: Table, calls: seq<Call>, records: seq<string>, j: nat, e: Edge)
    requires j < |records|
  {
    var o := CallOutcome(lib, nodes, calls, e.from, records[j]);
    && e.to in o.1.ids && e.metadata == o.0 && e.confidence == o.1.confidence
    && forall i :: 0 <= i < j ==> e.to !in CallOutcome(lib, nodes, calls, e.from, records[i]).1.ids
  }
}
