/** The recorded RPC strings: their prefixes, and what the non-call records say. */
module Records {
  import opened Text
  import opened GraphModel

  type Call = (Id, string)

  /** The records of one node, in recorded order. */
  function CallsOf(calls: seq<Call>, id: Id): seq<string> {
    if calls == [] then []
    else
      var last := calls[|calls| - 1];
      CallsOf(calls[..|calls| - 1], id) + if last.0 == id then [last.1] else []
  }

  lemma {:induction false} CallsOfMember(calls: seq<Call>, id: Id)
    ensures forall r :: r in CallsOf(calls, id) <==> (id, r) in calls
  {
    if calls != [] {
      CallsOfMember(calls[..|calls| - 1], id);
      assert calls == calls[..|calls| - 1] + [calls[|calls| - 1]];
    }
  }

  /** Records come in the order of the calls. */
  lemma {:induction false} CallsOfJoin(a: seq<Call>, b: seq<Call>, id: Id)
    ensures CallsOf(a + b, id) == CallsOf(a, id) + CallsOf(b, id)
    ensures forall r :: CallsOf([(id, r)], id) == [r]
  {
    if b == [] {
      assert a + b == a;
    } else {
      assert (a + b)[..|a + b| - 1] == a + b[..|b| - 1];
      CallsOfJoin(a, b[..|b| - 1], id);
    }
  }

  function StripPrefix(s: string, c: char): Option<string> {
    if s != "" && s[0] == c then Some(s[1..]) else None
  }

  /** `<prefix>key=value`. */
  function Assignment(recorded: string, prefix: char): Option<(string, string)> {
    match StripPrefix(recorded, prefix)
    case Some(rest) => SplitOnce(rest, '=')
    case None => None
  }

  /** `service|method`, the arguments of a handler's decorator. */
  function HandlerRef(reference: string): Option<(string, string)> {
    match SplitOnce(reference, '|')
    case Some((service, rest)) => Some((service, Split(rest, '|')[0]))
    case None => None
  }

  predicate IsQuote(c: char) {
    c == '\'' || c == '"' || c == '`'
  }

  predicate IsQuoted(expr: string) {
    |expr| >= 2 && IsQuote(expr[0]) && expr[|expr| - 1] == expr[0]
  }

  function TrimStart(s: string): string {
    if s != "" && (IsQuote(s[0]) || s[0] == '?') then TrimStart(s[1..]) else s
  }

  function TrimEnd(s: string): string {
    if s != "" && (IsQuote(s[|s| - 1]) || s[|s| - 1] == '?') then TrimEnd(s[..|s| - 1]) else s
  }

  function Unquote(s: string): string {
    TrimEnd(TrimStart(s))
  }

  predicate AsciiAlnum(c: char) {
    'a' <= c <= 'z' || 'A' <= c <= 'Z' || '0' <= c <= '9'
  }

  /** Lowercase alphanumerics only. */
  function FoldRpcName(s: string): string {
    if s == "" then ""
    else if AsciiAlnum(s[0]) then [AsciiLowerChar(s[0])] + FoldRpcName(s[1..])
    else FoldRpcName(s[1..])
  }

  function AsciiUpperChar(c: char): char {
    if 'a' <= c <= 'z' then (c as int - 'a' as int + 'A' as int) as char else c
  }

  /** `userService` or `userClient` names `UserService`. */
  function ServiceFromField(field: string): Option<string> {
    var stem :=
      if EndsWith(field, "Client") then Some(field[..|field| - 6])
      else if EndsWith(field, "Service") then Some(field[..|field| - 7])
      else None;
    match stem
    case Some(s) => if s != "" && 'a' <= s[0] <= 'z' then Some([AsciiUpperChar(s[0])] + s[1..] + "Service") else None
    case None => None
  }

  const HEALTH := "grpc.health.v1.health"

  /** The standard health service, or one of its methods, by full name. */
  predicate IsHealthName(target: string) {
    |target| >= |HEALTH| && EqIgnoreCase(target[..|HEALTH|], HEALTH)
    && (|target| == |HEALTH| || target[|HEALTH|] == '.')
  }

  predicate IsHealthService(lib: Lib, n: Node) {
    var segments := Split(n.name, '.');
    var service :=
      if n.kind.GrpcService? then Some(segments[|segments| - 1])
      else if n.kind.GrpcMethod? && |segments| >= 2 then Some(segments[|segments| - 2])
      else None;
    service.Some? && EqIgnoreCase(service.value, "health") && (n.package == "grpc.health.v1" || !lib.isProto(n.file))
  }

  /** What a handler serves, as its decorator spells it: a literal service, and the method folded. */
  function SpelledService(service: string): Option<string> {
    if service != "" && IsQuote(service[0]) && Unquote(service) != "" then Some(LastSegment(Unquote(service))) else None
  }

  /** The `(service, method)` one handler record says is served. */
  function ServedBy(reference: string, resolved: Option<string>): Option<(Option<string>, string)> {
    match resolved
    case Some(rpc) =>
      (match RSplitOnce(rpc, '.')
       case Some((service, rpcName)) => Some((Some(service), FoldRpcName(rpcName)))
       case None => None)
    case None =>
      match HandlerRef(reference)
      case Some((service, rpcName)) => Some((SpelledService(service), FoldRpcName(LastSegment(Unquote(rpcName)))))
      case None => None
  }

  /** The last handler record of a node that says what is served. */
  function Served(records: seq<string>, resolved: Option<string>): Option<(Option<string>, string)> {
    if records == [] then None
    else
      var last := StripPrefix(records[|records| - 1], '@');
      if last.Some? && ServedBy(last.value, resolved).Some? then ServedBy(last.value, resolved)
      else Served(records[..|records| - 1], resolved)
  }

  /** A guess made inside the handler of the RPC it names is delegation, not a call. */
  predicate Delegates(served: Option<(Option<string>, string)>, target: string) {
    var (calledService, called) := match RSplitOnce(target, '.') case Some(pair) => pair case None => ("", target);
    && served.Some? && served.value.1 == FoldRpcName(called)
    && served.value.0.Some? && EqIgnoreCase(served.value.0.value, LastSegment(calledService))
  }
}
