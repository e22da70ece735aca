/** Configuration properties: masking of sensitive keys through placeholder resolution and incremental reloads. */
module Properties {
  import opened Text

  const REDACTED := "[REDACTED_SECRET: USE_ENV_OR_LOCAL_FALLBACK]"

  type Values = map<string, string>

  /** The sensitive-key heuristic (already false everywhere when redaction is off) and Unicode trimming. */
  datatype Rules = Rules(sensitive: string -> bool, trim: string -> string)

  /** Values as ingested, values as shown, and the file each key came from. */
  datatype Registry = Registry(raw: Values, flat: Values, sources: map<string, string>)

  const EMPTY := Registry(map[], map[], map[])

  // ------------------------------------------------------------------ the operations on values

  function Sanitized(rules: Rules, key: string, value: string): string {
    if rules.sensitive(key) then REDACTED else value
  }

  function Insert(rules: Rules, r: Registry, key: string, value: string): Registry {
    r.(raw := r.raw[key := value], flat := r.flat[key := Sanitized(rules, key, value)])
  }

  function InsertAll(rules: Rules, r: Registry, pairs: seq<(string, string)>): Registry {
    if pairs == [] then r
    else Insert(rules, InsertAll(rules, r, pairs[..|pairs| - 1]), pairs[|pairs| - 1].0, pairs[|pairs| - 1].1)
  }

  function Merge(r: Registry, other: Registry, source: string): Registry {
    Registry(r.raw + other.raw, r.flat + other.flat, r.sources + Owned(other.flat.Keys, source))
  }

  /** The keys attributed to a file. */
  function Owned(keys: set<string>, source: string): map<string, string> {
    map k | k in keys :: source
  }

  lemma OwnedNone(sources: map<string, string>, source: string)
    ensures sources + Owned({}, source) == sources
  {
  }

  lemma OwnedMore(sources: map<string, string>, keys: set<string>, key: string, source: string)
    ensures sources + Owned(keys + {key}, source) == (sources + Owned(keys, source))[key := source]
  {
  }

  function RemoveFiles(r: Registry, paths: set<string>): Registry {
    Without(r, set k | k in r.sources && r.sources[k] in paths)
  }

  function Without(r: Registry, keys: set<string>): Registry {
    Registry(r.raw - keys, r.flat - keys, r.sources - keys)
  }

  lemma WithoutMore(r: Registry, keys: set<string>, key: string)
    ensures
      var w := Without(r, keys);
      Without(r, keys + {key}) == Registry(w.raw - {key}, w.flat - {key}, w.sources - {key})
  {
  }

  /** A value of the form `${key}` or `${key:default}`. */
  function Placeholder(rules: Rules, value: string): Option<(string, Option<string>)> {
    if "${" <= value && EndsWith(value, "}") && |value| >= 3 then
      var inner := value[2..|value| - 1];
      match SplitOnce(inner, ':')
      case Some((k, d)) => Some((rules.trim(k), Some(rules.trim(d))))
      case None => Some((rules.trim(inner), None))
    else None
  }

  function ResolvePlaceholder(rules: Rules, flat: Values, raw: string): string {
    match Placeholder(rules, raw)
    case None => raw
    case Some((key, default)) =>
      if key in flat then flat[key]
      else if default.None? then raw
      else if rules.sensitive(key) then REDACTED
      else default.value
  }

  function ResolveOne(rules: Rules, r: Registry, key: string): Registry {
    if (key in r.flat && r.flat[key] == REDACTED) || key !in r.raw then r
    else r.(flat := r.flat[key := ResolvePlaceholder(rules, r.flat, r.raw[key])])
  }

  /** One pass over the keys in the given order. */
  function Resolve(rules: Rules, r: Registry, order: seq<string>): Registry {
    if order == [] then r else ResolveOne(rules, Resolve(rules, r, order[..|order| - 1]), order[|order| - 1])
  }

  // ------------------------------------------------------------------ the registry

  class PropertyRegistry {
    const rules: Rules
    var rawValues: Values
    var flatProperties: Values
    var sources: map<string, string>

    function Value(): Registry
      reads this
    {
      Registry(rawValues, flatProperties, sources)
    }

    constructor (rules: Rules)
      ensures this.rules == rules && Value() == EMPTY
    {
      this.rules := rules;
      rawValues, flatProperties, sources := map[], map[], map[];
    }

    method InsertSanitized(key: string, value: string)
      modifies this
      ensures Value() == Insert(rules, old(Value()), key, value)
    {
      var shown := if rules.sensitive(key) then REDACTED else value;
      rawValues := rawValues[key := value];
      flatProperties := flatProperties[key := shown];
    }

    /** The other registry is given up to this one, so the two are distinct. */
    method MergeFrom(other: PropertyRegistry, source: string)
      requires other != this
      modifies this
      ensures Value() == Merge(old(Value()), old(other.Value()), source)
    {
      var keys := other.flatProperties.Keys;
      var todo := keys;
      ghost var before := sources;
      OwnedNone(before, source);
      assert keys - todo == {};
      while todo != {}
        invariant todo <= keys && rawValues == old(rawValues) && flatProperties == old(flatProperties)
        invariant sources == before + Owned(keys - todo, source)
      {
        hide Owned;
        var key :| key in todo;
        OwnedMore(before, keys - todo, key, source);
        assert keys - (todo - {key}) == (keys - todo) + {key};
        todo := todo - {key};
        sources := sources[key := source];
      }
      assert keys - todo == keys;
      rawValues := rawValues + other.rawValues;
      flatProperties := flatProperties + other.flatProperties;
    }

    method RemoveFilesOf(paths: set<string>)
      modifies this
      ensures Value() == RemoveFiles(old(Value()), paths)
    {
      if paths == {} {
        assert forall k :: k in sources ==> sources[k] !in paths;
        return;
      }
      var stale := set k | k in sources && sources[k] in paths;
      var todo := stale;
      while todo != {}
        invariant todo <= stale
        invariant Value() == Without(old(Value()), stale - todo)
      {
        var key :| key in todo;
        assert stale - (todo - {key}) == (stale - todo) + {key};
        WithoutMore(old(Value()), stale - todo, key);
        flatProperties := flatProperties - {key};
        rawValues := rawValues - {key};
        sources := sources - {key};
        todo := todo - {key};
      }
      assert stale - todo == stale;
    }

    /** Visits every key once, in an order the hash map chooses. */
    method ResolveAllPlaceholders() returns (ghost order: seq<string>)
      modifies this
      ensures Value() == Resolve(rules, old(Value()), order) && EachOnce(order, old(rawValues).Keys)
    {
      order := [];
      var keys := rawValues.Keys;
      var todo := keys;
      while todo != {}
        invariant todo <= keys && rawValues == old(rawValues) && sources == old(sources)
        invariant EachOnce(order, keys - todo)
        invariant Value() == Resolve(rules, old(Value()), order)
      {
        var key :| key in todo;
        assert (order + [key])[..|order|] == order;
        assert keys - (todo - {key}) == (keys - todo) + {key};
        if !(key in flatProperties && flatProperties[key] == REDACTED) && key in rawValues {
          var resolved := ResolvePlaceholder(rules, flatProperties, rawValues[key]);
          flatProperties := flatProperties[key := resolved];
        }
        OnceMore(order, keys - todo, key);
        order := order + [key];
        todo := todo - {key};
      }
      assert keys - todo == keys;
    }
  }

  ghost predicate EachOnce(order: seq<string>, keys: set<string>) {
    && (forall i, j :: 0 <= i < j < |order| ==> order[i] != order[j])
    && (forall k :: k in order <==> k in keys)
  }

  lemma OnceMore(order: seq<string>, keys: set<string>, key: string)
    requires EachOnce(order, keys) && key !in keys
    ensures EachOnce(order + [key], keys + {key})
  {
  }

  // ------------------------------------------------------------------ sensitive values never show

  /** A sensitive key shows the mask, and the two value tables have the same keys. */
  ghost predicate Masked(rules: Rules, r: Registry) {
    r.raw.Keys == r.flat.Keys && forall k :: k in r.flat && rules.sensitive(k) ==> r.flat[k] == REDACTED
  }

  /** Equal in everything but the ingested values of sensitive keys. */
  ghost predicate Alike(rules: Rules, a: Registry, b: Registry) {
    && a.flat == b.flat && a.sources == b.sources && a.raw.Keys == b.raw.Keys
    && forall k :: k in a.raw && !rules.sensitive(k) ==> a.raw[k] == b.raw[k]
  }

  datatype Op =
    | Ingest(pairs: seq<(string, string)>)
    | MergeFile(pairs: seq<(string, string)>, source: string)
    | Remove(paths: set<string>)
    | ResolveAll(order: seq<string>)

  function Apply(rules: Rules, r: Registry, op: Op): Registry {
    match op
    case Ingest(pairs) => InsertAll(rules, r, pairs)
    case MergeFile(pairs, source) => Merge(r, InsertAll(rules, EMPTY, pairs), source)
    case Remove(paths) => RemoveFiles(r, paths)
    case ResolveAll(order) => Resolve(rules, r, order)
  }

  function ApplyAll(rules: Rules, r: Registry, ops: seq<Op>): Registry {
    if ops == [] then r else Apply(rules, ApplyAll(rules, r, ops[..|ops| - 1]), ops[|ops| - 1])
  }

  /** The same pairs but for the values of sensitive keys. */
  ghost predicate AlikePairs(rules: Rules, a: seq<(string, string)>, b: seq<(string, string)>) {
    |a| == |b| && forall i :: 0 <= i < |a| ==> a[i].0 == b[i].0 && (!rules.sensitive(a[i].0) ==> a[i].1 == b[i].1)
  }

  ghost predicate AlikeOp(rules: Rules, a: Op, b: Op) {
    match (a, b)
    case (Ingest(p), Ingest(q)) => AlikePairs(rules, p, q)
    case (MergeFile(p, s), MergeFile(q, t)) => AlikePairs(rules, p, q) && s == t
    case (Remove(p), Remove(q)) => p == q
    case (ResolveAll(o), ResolveAll(u)) => o == u
    case _ => false
  }

  lemma InsertAlike(rules: Rules, a: Registry, b: Registry, key: string, v: string, w: string)
    requires Alike(rules, a, b) && Masked(rules, a) && (!rules.sensitive(key) ==> v == w)
    ensures Alike(rules, Insert(rules, a, key, v), Insert(rules, b, key, w)) && Masked(rules, Insert(rules, a, key, v))
  {
  }

  lemma {:induction false} InsertAllAlike(rules: Rules, a: Registry, b: Registry, p: seq<(string, string)>,
        q: seq<(string, string)>)
    requires Alike(rules, a, b) && Masked(rules, a) && AlikePairs(rules, p, q)
    ensures Alike(rules, InsertAll(rules, a, p), InsertAll(rules, b, q)) && Masked(rules, InsertAll(rules, a, p))
  {
    if p != [] {
      hide Alike, Masked;
      var n := |p| - 1;
      InsertAllAlike(rules, a, b, p[..n], q[..n]);
      InsertAlike(rules, InsertAll(rules, a, p[..n]), InsertAll(rules, b, q[..n]), p[n].0, p[n].1, q[n].1);
    }
  }

  lemma MergeAlike(rules: Rules, a: Registry, b: Registry, x: Registry, y: Registry, source: string)
    requires Alike(rules, a, b) && Masked(rules, a) && Alike(rules, x, y) && Masked(rules, x)
    ensures Alike(rules, Merge(a, x, source), Merge(b, y, source)) && Masked(rules, Merge(a, x, source))
  {
    hide Owned, REDACTED;
    var m, n := Merge(a, x, source), Merge(b, y, source);
    assert m.flat == n.flat && m.sources == n.sources;
    assert m.raw.Keys == a.raw.Keys + x.raw.Keys && n.raw.Keys == b.raw.Keys + y.raw.Keys
      && m.flat.Keys == a.flat.Keys + x.flat.Keys;
  }

  lemma RemoveAlike(rules: Rules, a: Registry, b: Registry, paths: set<string>)
    requires Alike(rules, a, b) && Masked(rules, a)
    ensures Alike(rules, RemoveFiles(a, paths), RemoveFiles(b, paths)) && Masked(rules, RemoveFiles(a, paths))
  {
  }

  /** A masked key is skipped, so its ingested value is never read. */
  lemma ResolveOneAlike(rules: Rules, a: Registry, b: Registry, key: string)
    requires Alike(rules, a, b) && Masked(rules, a)
    ensures Alike(rules, ResolveOne(rules, a, key), ResolveOne(rules, b, key))
    ensures Masked(rules, ResolveOne(rules, a, key))
  {
    hide ResolvePlaceholder;
  }

  lemma {:induction false} ResolveAlike(rules: Rules, a: Registry, b: Registry, order: seq<string>)
    requires Alike(rules, a, b) && Masked(rules, a)
    ensures Alike(rules, Resolve(rules, a, order), Resolve(rules, b, order)) && Masked(rules, Resolve(rules, a, order))
  {
    if order != [] {
      hide Alike, Masked;
      var init := order[..|order| - 1];
      ResolveAlike(rules, a, b, init);
      ResolveOneAlike(rules, Resolve(rules, a, init), Resolve(rules, b, init), order[|order| - 1]);
    }
  }

  lemma ApplyAlike(rules: Rules, a: Registry, b: Registry, x: Op, y: Op)
    requires Alike(rules, a, b) && Masked(rules, a) && AlikeOp(rules, x, y)
    ensures Alike(rules, Apply(rules, a, x), Apply(rules, b, y)) && Masked(rules, Apply(rules, a, x))
  {
    assert Alike(rules, EMPTY, EMPTY) && Masked(rules, EMPTY);
    hide Alike, Masked, AlikePairs, InsertAll, Resolve, Merge, RemoveFiles;
    match x
    case Ingest(p) => InsertAllAlike(rules, a, b, p, y.pairs);
    case MergeFile(p, s) =>
      InsertAllAlike(rules, EMPTY, EMPTY, p, y.pairs);
      MergeAlike(rules, a, b, InsertAll(rules, EMPTY, p), InsertAll(rules, EMPTY, y.pairs), s);
    case Remove(p) => RemoveAlike(rules, a, b, p);
    case ResolveAll(o) => ResolveAlike(rules, a, b, o);
  }

  /**
   * Two histories of ingesting, merging, removing and resolving that differ only in the values given for sensitive keys
   * show the same properties after every step, whatever order each resolution visits the keys in.
   */
  lemma {:induction false} SecretsDoNotShow(rules: Rules, xs: seq<Op>, ys: seq<Op>)
    requires |xs| == |ys| && forall i :: 0 <= i < |xs| ==> AlikeOp(rules, xs[i], ys[i])
    ensures Alike(rules, ApplyAll(rules, EMPTY, xs), ApplyAll(rules, EMPTY, ys))
    ensures Masked(rules, ApplyAll(rules, EMPTY, xs))
    ensures ApplyAll(rules, EMPTY, xs).flat == ApplyAll(rules, EMPTY, ys).flat
  {
    if xs != [] {
      hide AlikeOp, Masked, Apply;
      var n := |xs| - 1;
      SecretsDoNotShow(rules, xs[..n], ys[..n]);
      ApplyAlike(rules, ApplyAll(rules, EMPTY, xs[..n]), ApplyAll(rules, EMPTY, ys[..n]), xs[n], ys[n]);
    }
  }

  // ------------------------------------------------------------------ resolving again

  /** The key's placeholder, if it has one, names no key whose own value is a placeholder. */
  ghost predicate OneLink(rules: Rules, raw: Values, k: string) {
    k in raw && Placeholder(rules, raw[k]).Some? ==>
      var target := Placeholder(rules, raw[k]).value.0;
      target in raw ==> Placeholder(rules, raw[target]).None?
  }

  /** What a build from scratch shows for a key. */
  ghost function Fresh(rules: Rules, raw: Values, key: string): string
    requires key in raw
  {
    if rules.sensitive(key) then REDACTED
    else
      match Placeholder(rules, raw[key])
      case None => raw[key]
      case Some((target, default)) =>
        if target in raw then Sanitized(rules, target, raw[target])
        else if default.None? then raw[key]
        else Sanitized(rules, target, default.value)
  }

  /** Keys whose values are no placeholders show their sanitized value. */
  ghost predicate LiteralsShown(rules: Rules, r: Registry) {
    forall k :: k in r.raw && Placeholder(rules, r.raw[k]).None? ==>
      k in r.flat && r.flat[k] == Sanitized(rules, k, r.raw[k])
  }

  /** Masked, with literals shown. */
  ghost predicate Consistent(rules: Rules, r: Registry) {
    Masked(rules, r) && LiteralsShown(rules, r)
  }

  lemma {:induction false} InsertAllConsistent(rules: Rules, r: Registry, pairs: seq<(string, string)>)
    requires Consistent(rules, r)
    ensures Consistent(rules, InsertAll(rules, r, pairs))
  {
    if pairs != [] {
      hide Placeholder;
      InsertAllConsistent(rules, r, pairs[..|pairs| - 1]);
    }
  }

  lemma {:induction false} ResolveConsistent(rules: Rules, r: Registry, order: seq<string>)
    requires Consistent(rules, r)
    ensures Consistent(rules, Resolve(rules, r, order))
  {
    if order != [] {
      hide Consistent, ResolveOne;
      ResolveConsistent(rules, r, order[..|order| - 1]);
      ResolveOneConsistent(rules, Resolve(rules, r, order[..|order| - 1]), order[|order| - 1]);
    }
  }

  lemma ResolveOneConsistent(rules: Rules, r: Registry, key: string)
    requires Consistent(rules, r)
    ensures Consistent(rules, ResolveOne(rules, r, key))
  {
    hide Placeholder, REDACTED;
  }

  lemma ApplyConsistent(rules: Rules, r: Registry, op: Op)
    requires Consistent(rules, r)
    ensures Consistent(rules, Apply(rules, r, op))
  {
    assert Consistent(rules, EMPTY);
    hide Consistent, InsertAll, Resolve, Merge, RemoveFiles;
    match op
    case Ingest(pairs) => InsertAllConsistent(rules, r, pairs);
    case MergeFile(pairs, source) =>
      InsertAllConsistent(rules, EMPTY, pairs);
      MergeConsistent(rules, r, InsertAll(rules, EMPTY, pairs), source);
    case Remove(paths) => WithoutConsistent(rules, r, paths);
    case ResolveAll(order) => ResolveConsistent(rules, r, order);
  }

  lemma MergeConsistent(rules: Rules, r: Registry, other: Registry, source: string)
    requires Consistent(rules, r) && Consistent(rules, other)
    ensures Consistent(rules, Merge(r, other, source))
  {
    hide Placeholder, Owned, REDACTED, Sanitized;
    var m := Merge(r, other, source);
    assert m.raw.Keys == r.raw.Keys + other.raw.Keys && m.flat.Keys == r.flat.Keys + other.flat.Keys;
  }

  lemma WithoutConsistent(rules: Rules, r: Registry, paths: set<string>)
    requires Consistent(rules, r)
    ensures Consistent(rules, RemoveFiles(r, paths))
  {
    hide Placeholder, REDACTED, Sanitized;
  }

  /** Every history leaves a registry consistent. */
  lemma {:induction false} AlwaysConsistent(rules: Rules, ops: seq<Op>)
    ensures Consistent(rules, ApplyAll(rules, EMPTY, ops))
  {
    if ops != [] {
      hide Consistent, Apply;
      AlwaysConsistent(rules, ops[..|ops| - 1]);
      ApplyConsistent(rules, ApplyAll(rules, EMPTY, ops[..|ops| - 1]), ops[|ops| - 1]);
    }
  }

  lemma ResolveOneMeans(rules: Rules, r: Registry, key: string, k: string)
    requires Masked(rules, r) && LiteralsShown(rules, r) && OneLink(rules, r.raw, k) && key in r.raw && k in r.raw
    ensures
      var r' := ResolveOne(rules, r, key);
      && Masked(rules, r') && LiteralsShown(rules, r') && r'.raw == r.raw
      && r'.flat[k] == if k == key && r.flat[k] != REDACTED then Fresh(rules, r.raw, k) else r.flat[k]
  {
    hide Placeholder;
  }

  lemma {:induction false} ResolveMeans(rules: Rules, r: Registry, order: seq<string>, k: string)
    requires Masked(rules, r) && LiteralsShown(rules, r) && OneLink(rules, r.raw, k) && k in r.raw
    requires forall i :: 0 <= i < |order| ==> order[i] in r.raw
    ensures
      var r' := Resolve(rules, r, order);
      && Masked(rules, r') && LiteralsShown(rules, r') && r'.raw == r.raw
      && r'.flat[k] == if k in order && r.flat[k] != REDACTED then Fresh(rules, r.raw, k) else r.flat[k]
  {
    if order != [] {
      hide Masked, LiteralsShown, OneLink, Fresh, ResolveOne;
      var init, last := order[..|order| - 1], order[|order| - 1];
      ResolveMeans(rules, r, init, k);
      hide Resolve;
      ResolveLast(rules, r, order);
      ResolveOneMeans(rules, Resolve(rules, r, init), last, k);
      LastMember(order, k);
    }
  }

  lemma ResolveLast(rules: Rules, r: Registry, order: seq<string>)
    requires order != []
    ensures Resolve(rules, r, order) == ResolveOne(rules, Resolve(rules, r, order[..|order| - 1]), order[|order| - 1])
  {
  }

  lemma LastMember(order: seq<string>, k: string)
    requires order != []
    ensures k in order <==> k in order[..|order| - 1] || k == order[|order| - 1]
  {
    assert order == order[..|order| - 1] + [order[|order| - 1]];
  }

  // ------------------------------------------------------------------ what a rebuild shows

  ghost predicate NeverResolved(ops: seq<Op>) {
    forall i :: 0 <= i < |ops| ==> !ops[i].ResolveAll?
  }

  /** Every key shows its sanitized value. */
  ghost predicate AsIngested(rules: Rules, r: Registry) {
    r.raw.Keys == r.flat.Keys && forall k :: k in r.raw ==> r.flat[k] == Sanitized(rules, k, r.raw[k])
  }

  lemma {:induction false} InsertAllIngested(rules: Rules, r: Registry, pairs: seq<(string, string)>)
    requires AsIngested(rules, r)
    ensures AsIngested(rules, InsertAll(rules, r, pairs))
  {
    if pairs != [] {
      InsertAllIngested(rules, r, pairs[..|pairs| - 1]);
    }
  }

  lemma MergeIngested(rules: Rules, r: Registry, other: Registry, source: string)
    requires AsIngested(rules, r) && AsIngested(rules, other)
    ensures AsIngested(rules, Merge(r, other, source))
  {
    hide Owned, REDACTED, Sanitized;
    var m := Merge(r, other, source);
    assert m.raw.Keys == r.raw.Keys + other.raw.Keys && m.flat.Keys == r.flat.Keys + other.flat.Keys;
  }

  lemma WithoutIngested(rules: Rules, r: Registry, paths: set<string>)
    requires AsIngested(rules, r)
    ensures AsIngested(rules, RemoveFiles(r, paths))
  {
    hide REDACTED, Sanitized;
  }

  lemma {:induction false} BuiltAsIngested(rules: Rules, ops: seq<Op>)
    requires NeverResolved(ops)
    ensures AsIngested(rules, ApplyAll(rules, EMPTY, ops))
  {
    assert AsIngested(rules, EMPTY);
    if ops != [] {
      var init, last := ops[..|ops| - 1], ops[|ops| - 1];
      BuiltAsIngested(rules, init);
      hide AsIngested, InsertAll, Merge, RemoveFiles;
      var r := ApplyAll(rules, EMPTY, init);
      match last
      case Ingest(pairs) => InsertAllIngested(rules, r, pairs);
      case MergeFile(pairs, source) =>
        InsertAllIngested(rules, EMPTY, pairs);
        MergeIngested(rules, r, InsertAll(rules, EMPTY, pairs), source);
      case Remove(paths) => WithoutIngested(rules, r, paths);
    }
  }

  lemma MaskIsNoPlaceholder(rules: Rules)
    ensures Placeholder(rules, REDACTED).None?
  {
    assert REDACTED[0] == '[' && "${"[0] == '$';
  }

  lemma IngestedConsistent(rules: Rules, r: Registry)
    requires AsIngested(rules, r)
    ensures Consistent(rules, r)
  {
    hide Placeholder, REDACTED;
  }

  /**
   * A build that ingests, merges and removes, and then resolves once in any order, shows `Fresh` for every settled key.
   */
  lemma RebuildShowsFresh(rules: Rules, ops: seq<Op>, order: seq<string>, k: string)
    requires
      var r := ApplyAll(rules, EMPTY, ops);
      NeverResolved(ops) && EachOnce(order, r.raw.Keys) && k in r.raw && Settled(rules, r.raw, k)
    ensures k in ApplyAll(rules, EMPTY, ops + [ResolveAll(order)]).flat
    ensures ApplyAll(rules, EMPTY, ops + [ResolveAll(order)]).flat[k]
      == Fresh(rules, ApplyAll(rules, EMPTY, ops).raw, k)
  {
    hide Placeholder, Resolve, Settled;
    BuiltAsIngested(rules, ops);
    ApplyLast(rules, ops, ResolveAll(order));
    SettledShown(rules, ApplyAll(rules, EMPTY, ops), order, k);
  }

  lemma OneLinkSettled(rules: Rules, raw: Values, k: string)
    requires k in raw && OneLink(rules, raw, k)
    ensures Settled(rules, raw, k)
  {
    hide Placeholder;
  }

  lemma ApplyLast(rules: Rules, ops: seq<Op>, op: Op)
    ensures ApplyAll(rules, EMPTY, ops + [op]) == Apply(rules, ApplyAll(rules, EMPTY, ops), op)
  {
    assert (ops + [op])[..|ops|] == ops;
  }

  lemma AllVisited(order: seq<string>, keys: set<string>)
    requires EachOnce(order, keys)
    ensures (forall i :: 0 <= i < |order| ==> order[i] in keys) && forall k :: k in keys ==> k in order
  {
    forall i | 0 <= i < |order| ensures order[i] in keys {
      assert order[i] in order;
    }
  }

  /**
   * A rebuild shows the mask: the key is sensitive, or its literal is the mask, or what its placeholder names is one of
   * these.
   */
  ghost predicate ShowsMask(rules: Rules, raw: Values, k: string)
    requires k in raw
  {
    || rules.sensitive(k)
    || match Placeholder(rules, raw[k])
       case None => raw[k] == REDACTED
       case Some((target, default)) =>
         if target in raw then rules.sensitive(target) || raw[target] == REDACTED
         else default.Some? && (rules.sensitive(target) || default.value == REDACTED)
  }

  lemma FreshIsMask(rules: Rules, raw: Values, k: string)
    requires k in raw
    ensures Fresh(rules, raw, k) == REDACTED <==> ShowsMask(rules, raw, k)
  {
    hide Placeholder;
    MaskIsNoPlaceholder(rules);
  }

  /** The key shows the mask although a rebuild would not. */
  ghost predicate MaskSticks(rules: Rules, r: Registry, k: string)
    requires k in r.raw && k in r.flat
  {
    r.flat[k] == REDACTED && !ShowsMask(rules, r.raw, k)
  }

  /**
   * Resolving shows what a rebuild shows for a key, in any visiting order, if and only if the mask does not stick to
   * it.
   */
  lemma ResolvedIsFresh(rules: Rules, r: Registry, order: seq<string>, k: string)
    requires Consistent(rules, r) && OneLink(rules, r.raw, k) && k in r.raw && EachOnce(order, r.raw.Keys)
    ensures k in Resolve(rules, r, order).flat
    ensures Resolve(rules, r, order).flat[k] == Fresh(rules, r.raw, k) <==> !MaskSticks(rules, r, k)
  {
    hide Placeholder, Fresh, ShowsMask;
    AllVisited(order, r.raw.Keys);
    ResolveMeans(rules, r, order, k);
    FreshIsMask(rules, r.raw, k);
  }

  /**
   * After any history, resolving shows for a key what a rebuild of the same values shows, whatever orders the two visit
   * the keys in, if and only if the mask does not stick to the key.
   */
  lemma ResolveEqualsRebuild(rules: Rules, ops: seq<Op>, order: seq<string>, rebuild: seq<Op>, order': seq<string>,
        k: string)
    requires
      var r, b := ApplyAll(rules, EMPTY, ops), ApplyAll(rules, EMPTY, rebuild);
      && NeverResolved(rebuild) && b.raw == r.raw && OneLink(rules, r.raw, k) && k in r.raw
      && EachOnce(order, r.raw.Keys) && EachOnce(order', r.raw.Keys)
    ensures
      var x, y := ApplyAll(rules, EMPTY, ops + [ResolveAll(order)]),
        ApplyAll(rules, EMPTY, rebuild + [ResolveAll(order')]);
      && k in x.flat && k in y.flat && k in ApplyAll(rules, EMPTY, ops).flat
      && (x.flat[k] == y.flat[k] <==> !MaskSticks(rules, ApplyAll(rules, EMPTY, ops), k))
  {
    AlwaysConsistent(rules, ops);
    hide Placeholder, Fresh, ShowsMask, Resolve, OneLink, MaskSticks, Settled;
    var r := ApplyAll(rules, EMPTY, ops);
    OneLinkSettled(rules, r.raw, k);
    RebuildShowsFresh(rules, rebuild, order', k);
    ApplyLast(rules, ops, ResolveAll(order));
    ResolvedIsFresh(rules, r, order, k);
  }

  // ------------------------------------------------------------------ when a mask sticks

  /** Each resolution of the history visited present keys and found the key with one link at most. */
  ghost predicate OneLinkHistory(rules: Rules, ops: seq<Op>, k: string) {
    ops == [] ||
    var init, last := ops[..|ops| - 1], ops[|ops| - 1];
    && OneLinkHistory(rules, init, k)
    && (last.ResolveAll? ==>
          var raw := ApplyAll(rules, EMPTY, init).raw;
          OneLink(rules, raw, k) && forall i :: 0 <= i < |last.order| ==> last.order[i] in raw)
  }

  /** Since the key was last set, it was set to a masked value or some resolution found it masked. */
  ghost predicate MaskedSince(rules: Rules, ops: seq<Op>, k: string) {
    ops != [] &&
    var init, last := ops[..|ops| - 1], ops[|ops| - 1];
    var r := ApplyAll(rules, EMPTY, init);
    match last
    case Ingest(pairs) =>
      var written := InsertAll(rules, EMPTY, pairs);
      if k in written.raw then Sanitized(rules, k, written.raw[k]) == REDACTED else MaskedSince(rules, init, k)
    case MergeFile(pairs, source) =>
      var written := InsertAll(rules, EMPTY, pairs);
      if k in written.raw then Sanitized(rules, k, written.raw[k]) == REDACTED else MaskedSince(rules, init, k)
    case Remove(paths) => k in RemoveFiles(r, paths).raw && MaskedSince(rules, init, k)
    case ResolveAll(order) => MaskedSince(rules, init, k) || (k in order && k in r.raw && ShowsMask(rules, r.raw, k))
  }

  /** Ingesting pairs sets exactly the keys they name, each to its last value. */
  lemma {:induction false} InsertAllAt(rules: Rules, r: Registry, pairs: seq<(string, string)>, k: string)
    requires r.raw.Keys == r.flat.Keys
    ensures
      var after, written := InsertAll(rules, r, pairs), InsertAll(rules, EMPTY, pairs);
      && after.raw.Keys == after.flat.Keys && written.raw.Keys == written.flat.Keys
      && (k in after.raw <==> k in r.raw || k in written.raw)
      && (k in after.raw ==>
           after.flat[k] == if k in written.raw then Sanitized(rules, k, written.raw[k]) else r.flat[k])
      && (k in written.raw ==> written.flat[k] == Sanitized(rules, k, written.raw[k]))
  {
    if pairs != [] {
      hide Sanitized;
      InsertAllAt(rules, r, pairs[..|pairs| - 1], k);
    }
  }

  lemma {:induction false} ShownMask(rules: Rules, ops: seq<Op>, k: string)
    requires OneLinkHistory(rules, ops, k) && k in ApplyAll(rules, EMPTY, ops).raw
    ensures
      var r := ApplyAll(rules, EMPTY, ops);
      k in r.flat && (r.flat[k] == REDACTED <==> MaskedSince(rules, ops, k))
  {
    AlwaysConsistent(rules, ops);
    if ops != [] {
      var init, last := ops[..|ops| - 1], ops[|ops| - 1];
      var r := ApplyAll(rules, EMPTY, init);
      AlwaysConsistent(rules, init);
      if k in r.raw {
        ShownMask(rules, init, k);
      }
      hide InsertAll, Resolve, ShowsMask, OneLink, REDACTED, Sanitized, Placeholder;
      match last
      case Ingest(pairs) => InsertAllAt(rules, r, pairs, k);
      case MergeFile(pairs, source) => InsertAllAt(rules, EMPTY, pairs, k);
      case Remove(paths) =>
      case ResolveAll(order) =>
        ResolveKeys(rules, r, order);
        ResolveMeans(rules, r, order, k);
        FreshIsMask(rules, r.raw, k);
    }
  }

  lemma {:induction false} ResolveKeys(rules: Rules, r: Registry, order: seq<string>)
    ensures Resolve(rules, r, order).raw == r.raw
  {
    if order != [] {
      ResolveKeys(rules, r, order[..|order| - 1]);
    }
  }

  /**
   * Over every history, a mask sticks to a key exactly when the key was masked at some point since it was last set, by
   * its own value or by a resolution, and a rebuild of the current values would not mask it.
   */
  lemma MaskSticksExactly(rules: Rules, ops: seq<Op>, k: string)
    requires OneLinkHistory(rules, ops, k) && k in ApplyAll(rules, EMPTY, ops).raw
    ensures k in ApplyAll(rules, EMPTY, ops).flat
    ensures MaskSticks(rules, ApplyAll(rules, EMPTY, ops), k)
      <==> MaskedSince(rules, ops, k) && !ShowsMask(rules, ApplyAll(rules, EMPTY, ops).raw, k)
  {
    ShownMask(rules, ops, k);
  }

  /**
   * Past one link the visiting order shows: of a key and the placeholder it names, the second one visited sees the
   * first resolved.
   */
  lemma ChainDependsOnOrder(rules: Rules, r: Registry, k: string, target: string)
    requires AsIngested(rules, r) && k in r.raw && target in r.raw && k != target && !rules.sensitive(k)
    requires !rules.sensitive(target)
    requires Placeholder(rules, r.raw[k]).Some? && Placeholder(rules, r.raw[k]).value.0 == target
    requires Placeholder(rules, r.raw[target]).Some?
    requires ResolvePlaceholder(rules, r.flat, r.raw[target]) != r.raw[target]
    ensures
      var early, late := Resolve(rules, r, [k, target]), Resolve(rules, r, [target, k]);
      k in early.flat && k in late.flat && early.flat[k] != late.flat[k]
  {
    hide Placeholder;
    MaskIsNoPlaceholder(rules);
    ResolveTwo(rules, r, k, target);
    ResolveTwo(rules, r, target, k);
    hide Resolve;
    assert ResolveOne(rules, r, k).flat[k] == r.raw[target];
    assert ResolveOne(rules, r, target).flat[target] == ResolvePlaceholder(rules, r.flat, r.raw[target]);
  }

  // ------------------------------------------------------------------ longer chains

  /** The value the key's placeholder names is there, neither masked nor its own, and does not resolve further. */
  ghost predicate Settled(rules: Rules, raw: Values, k: string)
    requires k in raw
  {
    !rules.sensitive(k) && Placeholder(rules, raw[k]).Some? ==>
      var target := Placeholder(rules, raw[k]).value.0;
      target in raw && target != k && !rules.sensitive(target) ==> Fresh(rules, raw, target) == raw[target]
  }

  lemma {:induction false} ResolveShape(rules: Rules, r: Registry, order: seq<string>)
    requires Masked(rules, r)
    ensures Masked(rules, Resolve(rules, r, order)) && Resolve(rules, r, order).raw == r.raw
  {
    if order != [] {
      hide Placeholder, ResolvePlaceholder;
      ResolveShape(rules, r, order[..|order| - 1]);
    }
  }

  /** A text that resolves to itself also names a text that does. */
  lemma SameText(rules: Rules, raw: Values, k: string)
    requires k in raw && !rules.sensitive(k) && Fresh(rules, raw, k) == raw[k] && Placeholder(rules, raw[k]).Some?
    ensures
      var target := Placeholder(rules, raw[k]).value.0;
      target in raw ==> !rules.sensitive(target) && raw[target] == raw[k] && Fresh(rules, raw, target) == raw[target]
  {
    hide Placeholder;
    MaskIsNoPlaceholder(rules);
  }

  /** A text that resolves to itself, shown as it is, naming one that is shown as it is or nothing. */
  ghost predicate Steady(rules: Rules, r: Registry, k: string) {
    && k in r.raw && k in r.flat && !rules.sensitive(k) && Fresh(rules, r.raw, k) == r.raw[k] && r.flat[k] == r.raw[k]
    && (Placeholder(rules, r.raw[k]).Some? ==>
          var target := Placeholder(rules, r.raw[k]).value.0;
          target in r.raw ==> target in r.flat && r.flat[target] == r.raw[target])
  }

  /** It stays so throughout. */
  lemma {:induction false} TextKept(rules: Rules, r: Registry, order: seq<string>, k: string)
    requires Masked(rules, r) && Steady(rules, r, k)
    ensures k in Resolve(rules, r, order).flat && Resolve(rules, r, order).flat[k] == r.raw[k]
    decreases |order|
  {
    if order != [] {
      hide Placeholder;
      var init := order[..|order| - 1];
      TextKept(rules, r, init, k);
      ResolveShape(rules, r, init);
      if Placeholder(rules, r.raw[k]).Some? {
        var target := Placeholder(rules, r.raw[k]).value.0;
        SameText(rules, r.raw, k);
        if target in r.raw {
          TextKept(rules, r, init, target);
        }
      }
    }
  }

  /**
   * What the key shows is current: a mask only where a rebuild masks, and, where its placeholder names a placeholder,
   * that text and the one it names in turn shown as they are.
   */
  ghost predicate Current(rules: Rules, r: Registry, k: string)
    requires k in r.raw && r.raw.Keys == r.flat.Keys
  {
    if r.flat[k] == REDACTED then ShowsMask(rules, r.raw, k)
    else
      Placeholder(rules, r.raw[k]).Some? ==>
        var target := Placeholder(rules, r.raw[k]).value.0;
        target in r.raw && !rules.sensitive(target) && Placeholder(rules, r.raw[target]).Some? ==>
          var next := Placeholder(rules, r.raw[target]).value.0;
          r.flat[target] == r.raw[target] && (next in r.raw ==> r.flat[next] == r.raw[next])
  }

  /** A settled key that is current shows the value read off the raw values once it is visited, in any order. */
  lemma {:induction false} CurrentShown(rules: Rules, r: Registry, order: seq<string>, k: string)
    requires Consistent(rules, r) && k in r.raw && Settled(rules, r.raw, k) && Current(rules, r, k)
    ensures k in Resolve(rules, r, order).flat
    ensures Resolve(rules, r, order).flat[k] == if k in order then Fresh(rules, r.raw, k) else r.flat[k]
  {
    if order != [] {
      var init, last := order[..|order| - 1], order[|order| - 1];
      CurrentShown(rules, r, init, k);
      LastMember(order, k);
      if last == k {
        CurrentVisit(rules, r, init, k);
      }
    }
  }

  lemma CurrentVisit(rules: Rules, r: Registry, init: seq<string>, k: string)
    requires Consistent(rules, r) && k in r.raw && Settled(rules, r.raw, k) && Current(rules, r, k)
    requires k in Resolve(rules, r, init).flat
    requires Resolve(rules, r, init).flat[k] == if k in init then Fresh(rules, r.raw, k) else r.flat[k]
    ensures ResolveOne(rules, Resolve(rules, r, init), k).flat[k] == Fresh(rules, r.raw, k)
  {
    hide Placeholder, Resolve;
    ResolveShape(rules, r, init);
    MaskIsNoPlaceholder(rules);
    FreshIsMask(rules, r.raw, k);
    if r.flat[k] != REDACTED && Placeholder(rules, r.raw[k]).Some? {
      var target := Placeholder(rules, r.raw[k]).value.0;
      if target in r.raw && !rules.sensitive(target) {
        NamedSteady(rules, r, k, target);
        TextKept(rules, r, init, target);
      }
    }
  }

  lemma NamedSteady(rules: Rules, r: Registry, k: string, target: string)
    requires Consistent(rules, r) && k in r.raw && Settled(rules, r.raw, k) && Current(rules, r, k)
    requires r.flat[k] != REDACTED && Placeholder(rules, r.raw[k]).Some?
    requires Placeholder(rules, r.raw[k]).value.0 == target && target in r.raw && !rules.sensitive(target)
    ensures Steady(rules, r, target)
  {
    hide Placeholder, REDACTED;
  }

  /** A freshly built registry is current. */
  lemma IngestedCurrent(rules: Rules, r: Registry, k: string)
    requires AsIngested(rules, r) && k in r.raw && Settled(rules, r.raw, k)
    ensures Consistent(rules, r) && Current(rules, r, k)
  {
    hide Placeholder;
    IngestedConsistent(rules, r);
    MaskIsNoPlaceholder(rules);
    if Placeholder(rules, r.raw[k]).Some? {
      var target := Placeholder(rules, r.raw[k]).value.0;
      if target in r.raw && !rules.sensitive(target) && Placeholder(rules, r.raw[target]).Some? && !rules.sensitive(k) {
        if target != k {
          SameText(rules, r.raw, target);
        }
      }
    }
  }

  /** A build resolved in any order shows the value read off the raw values for a settled key. */
  lemma SettledShown(rules: Rules, r: Registry, order: seq<string>, k: string)
    requires AsIngested(rules, r) && k in r.raw && Settled(rules, r.raw, k) && k in order
    ensures k in Resolve(rules, r, order).flat && Resolve(rules, r, order).flat[k] == Fresh(rules, r.raw, k)
  {
    hide Settled, Current, Fresh;
    IngestedCurrent(rules, r, k);
    CurrentShown(rules, r, order, k);
  }

  /** Some order visits the keys. */
  lemma {:induction false} AnyOrder(keys: set<string>) returns (order: seq<string>)
    ensures EachOnce(order, keys)
    decreases |keys|
  {
    if keys == {} {
      order := [];
    } else {
      var key :| key in keys;
      var init := AnyOrder(keys - {key});
      OnceMore(init, keys - {key}, key);
      assert keys - {key} + {key} == keys;
      order := init + [key];
    }
  }

  /** Keys visited later leave an earlier one alone. */
  lemma {:induction false} VisitedLater(rules: Rules, r: Registry, first: seq<string>, rest: seq<string>, k: string)
    requires k in Resolve(rules, r, first).flat && k !in rest
    ensures k in Resolve(rules, r, first + rest).flat
    ensures Resolve(rules, r, first + rest).flat[k] == Resolve(rules, r, first).flat[k]
  {
    if rest == [] {
      assert first + rest == first;
    } else {
      hide Placeholder;
      var all, init := first + rest, rest[..|rest| - 1];
      assert all[..|all| - 1] == first + init && all[|all| - 1] == rest[|rest| - 1];
      VisitedLater(rules, r, first, init, k);
    }
  }

  /** An unsettled key shows something else when what it names is visited first. */
  lemma UnsettledShown(rules: Rules, r: Registry, k: string) returns (order: seq<string>)
    requires AsIngested(rules, r) && k in r.raw && !Settled(rules, r.raw, k)
    ensures EachOnce(order, r.raw.Keys) && k in Resolve(rules, r, order).flat
    ensures Resolve(rules, r, order).flat[k] != Fresh(rules, r.raw, k)
  {
    hide Placeholder, Resolve;
    var target := Placeholder(rules, r.raw[k]).value.0;
    MaskIsNoPlaceholder(rules);
    assert Placeholder(rules, r.raw[target]).Some?;
    var rest := AnyOrder(r.raw.Keys - {target, k});
    order := [target, k] + rest;
    ResolveTwo(rules, r, target, k);
    assert ResolveOne(rules, r, target).flat[target] == Fresh(rules, r.raw, target);
    VisitedLater(rules, r, [target, k], rest, k);
  }

  /**
   * A build that ingests, merges and removes, and then resolves once, shows the value read off the raw values whatever
   * the visiting order, if and only if the key is settled.
   */
  lemma OrderFreeIffSettled(rules: Rules, ops: seq<Op>, k: string)
    requires NeverResolved(ops) && k in ApplyAll(rules, EMPTY, ops).raw
    ensures
      var r := ApplyAll(rules, EMPTY, ops);
      Settled(rules, r.raw, k) <==> forall order :: EachOnce(order, r.raw.Keys) ==>
        ShowsAfter(rules, r, order, k, Fresh(rules, r.raw, k))
  {
    hide Placeholder, Resolve, Fresh, Settled;
    var r := ApplyAll(rules, EMPTY, ops);
    BuiltAsIngested(rules, ops);
    if Settled(rules, r.raw, k) {
      forall order | EachOnce(order, r.raw.Keys) ensures ShowsAfter(rules, r, order, k, Fresh(rules, r.raw, k)) {
        SettledShown(rules, r, order, k);
      }
    } else {
      var order := UnsettledShown(rules, r, k);
      assert !ShowsAfter(rules, r, order, k, Fresh(rules, r.raw, k));
    }
  }

  ghost predicate ShowsAfter(rules: Rules, r: Registry, order: seq<string>, k: string, value: string) {
    k in Resolve(rules, r, order).flat && Resolve(rules, r, order).flat[k] == value
  }

  lemma {:induction false} MaskStays(rules: Rules, r: Registry, order: seq<string>, k: string)
    requires k in r.flat && r.flat[k] == REDACTED
    ensures ShowsAfter(rules, r, order, k, REDACTED)
  {
    if order != [] {
      hide Placeholder, ResolvePlaceholder;
      MaskStays(rules, r, order[..|order| - 1], k);
    }
  }

  /** A settled key that is not current shows something else in some order. */
  lemma StaleShown(rules: Rules, r: Registry, k: string) returns (order: seq<string>)
    requires Consistent(rules, r) && k in r.raw && Settled(rules, r.raw, k) && !Current(rules, r, k)
    ensures EachOnce(order, r.raw.Keys) && !ShowsAfter(rules, r, order, k, Fresh(rules, r.raw, k))
  {
    hide Placeholder, Resolve;
    if r.flat[k] == REDACTED {
      order := AnyOrder(r.raw.Keys);
      MaskStays(rules, r, order, k);
      FreshIsMask(rules, r.raw, k);
    } else {
      var target := Placeholder(rules, r.raw[k]).value.0;
      if r.flat[target] != r.raw[target] {
        order := FirstVisited(rules, r, k);
      } else {
        SameText(rules, r.raw, target);
        MaskIsNoPlaceholder(rules);
        var rest := AnyOrder(r.raw.Keys - {target, k});
        order := [target, k] + rest;
        ResolveTwo(rules, r, target, k);
        VisitedLater(rules, r, [target, k], rest, k);
      }
    }
  }

  /** Visited first, a key shows what its placeholder resolves to among the values shown so far. */
  lemma FirstVisited(rules: Rules, r: Registry, k: string) returns (order: seq<string>)
    requires k in r.raw && k in r.flat && r.flat[k] != REDACTED
    ensures EachOnce(order, r.raw.Keys) && ShowsAfter(rules, r, order, k, ResolvePlaceholder(rules, r.flat, r.raw[k]))
  {
    hide Placeholder, Resolve;
    var rest := AnyOrder(r.raw.Keys - {k});
    order := [k] + rest;
    ResolveSingle(rules, r, k);
    VisitedLater(rules, r, [k], rest, k);
  }

  /** The two registries show the same for the key after resolving in these orders. */
  ghost predicate SameShown(rules: Rules, r: Registry, order: seq<string>, b: Registry, order': seq<string>,
        k: string) {
    && k in Resolve(rules, r, order).flat && k in Resolve(rules, b, order').flat
    && Resolve(rules, r, order).flat[k] == Resolve(rules, b, order').flat[k]
  }

  /** In all orders, resolving shows for the key what a rebuild of the same values shows. */
  ghost predicate AlwaysAsRebuilt(rules: Rules, r: Registry, b: Registry, k: string) {
    forall order, order' :: EachOnce(order, r.raw.Keys) && EachOnce(order', r.raw.Keys) ==>
      SameShown(rules, r, order, b, order', k)
  }

  /**
   * After any history, resolving shows for a key what a rebuild of the same values shows, in every visiting order of
   * the two, if and only if the key is settled and current. Placeholders may form chains of any length.
   */
  lemma AsRebuiltIffCurrent(rules: Rules, ops: seq<Op>, rebuild: seq<Op>, k: string)
    requires
      var r, b := ApplyAll(rules, EMPTY, ops), ApplyAll(rules, EMPTY, rebuild);
      NeverResolved(rebuild) && b.raw == r.raw && k in r.raw
    ensures
      var r, b := ApplyAll(rules, EMPTY, ops), ApplyAll(rules, EMPTY, rebuild);
      && r.raw.Keys == r.flat.Keys
      && (AlwaysAsRebuilt(rules, r, b, k) <==> Settled(rules, r.raw, k) && Current(rules, r, k))
  {
    hide Placeholder, Resolve, Fresh, Settled, Current;
    var r, b := ApplyAll(rules, EMPTY, ops), ApplyAll(rules, EMPTY, rebuild);
    AlwaysConsistent(rules, ops);
    BuiltAsIngested(rules, rebuild);
    var some := AnyOrder(r.raw.Keys);
    if !Settled(rules, r.raw, k) {
      var late := UnsettledShown(rules, b, k);
      var early := UnsettledFirst(rules, b, k);
      assert !SameShown(rules, r, some, b, late, k) || !SameShown(rules, r, some, b, early, k);
    } else if !Current(rules, r, k) {
      var order := StaleShown(rules, r, k);
      SettledShown(rules, b, some, k);
      assert !SameShown(rules, r, order, b, some, k);
    } else {
      forall order, order' | EachOnce(order, r.raw.Keys) && EachOnce(order', r.raw.Keys)
        ensures SameShown(rules, r, order, b, order', k)
      {
        CurrentShown(rules, r, order, k);
        SettledShown(rules, b, order', k);
      }
    }
  }

  /** Visited first, an unsettled key of a build shows the value read off the raw values. */
  lemma UnsettledFirst(rules: Rules, r: Registry, k: string) returns (order: seq<string>)
    requires AsIngested(rules, r) && k in r.raw && !Settled(rules, r.raw, k)
    ensures EachOnce(order, r.raw.Keys) && ShowsAfter(rules, r, order, k, Fresh(rules, r.raw, k))
  {
    hide Placeholder, Resolve;
    MaskIsNoPlaceholder(rules);
    order := FirstVisited(rules, r, k);
  }

  /**
   * A key that once resolved to a masked value stays masked after the sensitive key's file is gone; a rebuild would
   * show its text.
   */
  lemma StaysMasked(rules: Rules, url: string, password: string, text: string, secret: string, a: string, b: string)
    requires url != password && a != b && rules.sensitive(password) && !rules.sensitive(url)
    requires Placeholder(rules, text) == Some((password, None)) && text != REDACTED
    ensures
      var built := Apply(rules, Apply(rules, EMPTY, MergeFile([(url, text)], a)), MergeFile([(password, secret)], b));
      var reloaded := Apply(rules, Apply(rules, built, ResolveAll([url, password])), Remove({b}));
      var again := Apply(rules, reloaded, ResolveAll([url]));
      && url in again.flat && again.flat[url] == REDACTED
      && again.raw == map[url := text] && Fresh(rules, again.raw, url) == text != REDACTED
  {
    hide Placeholder, REDACTED, Apply, Resolve, Fresh, ResolveOne, Merge, RemoveFiles;
    BuiltFromTwo(rules, url, password, text, secret, a, b);
    ResolvedTwo(rules, url, password, text, secret, a, b);
    PasswordGone(rules, url, password, text, secret, a, b);
    FreshText(rules, url, password, text);
  }

  lemma BuiltFromTwo(rules: Rules, url: string, password: string, text: string, secret: string, a: string, b: string)
    requires url != password && rules.sensitive(password) && !rules.sensitive(url)
    ensures Apply(rules, Apply(rules, EMPTY, MergeFile([(url, text)], a)), MergeFile([(password, secret)], b))
         == Registry(map[url := text, password := secret], map[url := text, password := REDACTED],
              map[url := a, password := b])
  {
    hide InsertAll, REDACTED, Merge;
    OneFile(rules, url, text);
    OneFile(rules, password, secret);
    MergeOne(EMPTY, url, text, text, a);
    MergeOne(Registry(map[url := text], map[url := text], map[url := a]), password, secret, REDACTED, b);
  }

  lemma MergeOne(r: Registry, key: string, value: string, shown: string, source: string)
    ensures Merge(r, Registry(map[key := value], map[key := shown], map[]), source)
         == Registry(r.raw[key := value], r.flat[key := shown], r.sources[key := source])
  {
  }

  lemma ResolvedTwo(rules: Rules, url: string, password: string, text: string, secret: string, a: string, b: string)
    requires url != password && Placeholder(rules, text) == Some((password, None)) && text != REDACTED
    ensures
      var built := Registry(map[url := text, password := secret], map[url := text, password := REDACTED],
        map[url := a, password := b]);
      Apply(rules, built, ResolveAll([url, password]))
      == Registry(map[url := text, password := secret], map[url := REDACTED, password := REDACTED],
           map[url := a, password := b])
  {
    hide Resolve, Placeholder, REDACTED;
    var built := Registry(map[url := text, password := secret], map[url := text, password := REDACTED],
      map[url := a, password := b]);
    ResolveTwo(rules, built, url, password);
    assert ResolveOne(rules, built, url).flat == map[url := REDACTED, password := REDACTED];
  }

  lemma PasswordGone(rules: Rules, url: string, password: string, text: string, secret: string, a: string, b: string)
    requires url != password && a != b
    ensures
      var resolved := Registry(map[url := text, password := secret], map[url := REDACTED, password := REDACTED],
        map[url := a, password := b]);
      var reloaded := Registry(map[url := text], map[url := REDACTED], map[url := a]);
      Apply(rules, resolved, Remove({b})) == reloaded && Apply(rules, reloaded, ResolveAll([url])) == reloaded
  {
    hide Resolve, REDACTED;
    var resolved := Registry(map[url := text, password := secret], map[url := REDACTED, password := REDACTED],
      map[url := a, password := b]);
    var reloaded := Registry(map[url := text], map[url := REDACTED], map[url := a]);
    assert (set k | k in resolved.sources && resolved.sources[k] in {b}) == {password};
    assert Apply(rules, resolved, Remove({b})) == reloaded;
    ResolveSingle(rules, reloaded, url);
  }

  lemma FreshText(rules: Rules, url: string, password: string, text: string)
    requires url != password && !rules.sensitive(url) && Placeholder(rules, text) == Some((password, None))
    ensures Fresh(rules, map[url := text], url) == text
  {
  }

  lemma OneFile(rules: Rules, key: string, value: string)
    ensures InsertAll(rules, EMPTY, [(key, value)])
      == Registry(map[key := value], map[key := Sanitized(rules, key, value)], map[])
  {
  }

  lemma ResolveSingle(rules: Rules, r: Registry, key: string)
    ensures Resolve(rules, r, [key]) == ResolveOne(rules, r, key)
  {
    assert [key][..0] == [];
  }

  lemma ResolveTwo(rules: Rules, r: Registry, first: string, second: string)
    ensures Resolve(rules, r, [first, second]) == ResolveOne(rules, ResolveOne(rules, r, first), second)
  {
    assert [first, second][..1] == [first];
    ResolveSingle(rules, r, first);
  }

  // ------------------------------------------------------------------ placeholders and files as text

  /** `${key}` names the key; `${key:default}` also gives a default, which may contain colons itself. */
  lemma PlaceholderText(rules: Rules, key: string, default: string)
    requires ':' !in key
    ensures Placeholder(rules, "${" + key + "}") == Some((rules.trim(key), None))
    ensures Placeholder(rules, "${" + key + ":" + default + "}") == Some((rules.trim(key), Some(rules.trim(default))))
  {
    hide SplitOnce;
    var plain, full := "${" + key + "}", "${" + key + ":" + default + "}";
    assert plain[2..|plain| - 1] == key && full[2..|full| - 1] == key + [':'] + default;
    assert plain[|plain| - 1..] == "}" && full[|full| - 1..] == "}";
    assert plain[..2] == "${" && full[..2] == "${";
    SplitOnceAt(key, ':', default);
  }

  /** Text that does not start with `${` or does not end with `}` is no placeholder. */
  lemma NoPlaceholder(rules: Rules, value: string)
    ensures !("${" <= value) ==> Placeholder(rules, value).None?
    ensures value == "" || value[|value| - 1] != '}' ==> Placeholder(rules, value).None?
  {
    if value != "" && value[|value| - 1] != '}' {
      assert value[|value| - 1..][0] != "}"[0];
    }
  }

  /** The last value a file gives a key is what it says. */
  ghost predicate LastPair(pairs: seq<(string, string)>, key: string, value: string) {
    exists i :: 0 <= i < |pairs| && pairs[i] == (key, value) && forall j :: i < j < |pairs| ==> pairs[j].0 != key
  }

  lemma {:induction false} InsertAllOther(rules: Rules, r: Registry, pairs: seq<(string, string)>, key: string)
    requires forall i :: 0 <= i < |pairs| ==> pairs[i].0 != key
    ensures
      var w := InsertAll(rules, r, pairs);
      && (key in w.raw <==> key in r.raw) && (key in w.flat <==> key in r.flat)
      && (key in r.raw ==> w.raw[key] == r.raw[key]) && (key in r.flat ==> w.flat[key] == r.flat[key])
  {
    if pairs != [] {
      hide Sanitized;
      InsertAllOther(rules, r, pairs[..|pairs| - 1], key);
    }
  }

  lemma {:induction false} InsertAllLast(rules: Rules, r: Registry, pairs: seq<(string, string)>, key: string,
                                         value: string)
    requires LastPair(pairs, key, value)
    ensures
      var w := InsertAll(rules, r, pairs);
      && key in w.raw && w.raw[key] == value && key in w.flat && w.flat[key] == Sanitized(rules, key, value)
  {
    hide Sanitized;
    var n := |pairs| - 1;
    if pairs[n].0 == key {
      LastIsValue(pairs, key, value);
    } else {
      EarlierPair(pairs, key, value);
      InsertAllLast(rules, r, pairs[..n], key, value);
    }
  }

  lemma LastIsValue(pairs: seq<(string, string)>, key: string, value: string)
    requires LastPair(pairs, key, value) && pairs[|pairs| - 1].0 == key
    ensures pairs[|pairs| - 1].1 == value
  {
  }

  lemma EarlierPair(pairs: seq<(string, string)>, key: string, value: string)
    requires LastPair(pairs, key, value) && pairs[|pairs| - 1].0 != key
    ensures LastPair(pairs[..|pairs| - 1], key, value)
  {
    var i :| 0 <= i < |pairs| && pairs[i] == (key, value) && forall j :: i < j < |pairs| ==> pairs[j].0 != key;
    assert pairs[..|pairs| - 1][i] == (key, value);
  }

  /** Merging a file gives its keys its values and its name, whatever they were, and leaves every other key alone. */
  lemma MergedFile(rules: Rules, r: Registry, pairs: seq<(string, string)>, source: string, key: string, value: string)
    requires r.raw.Keys == r.flat.Keys
    ensures
      var m := Apply(rules, r, MergeFile(pairs, source));
      && (LastPair(pairs, key, value) ==>
           key in m.raw && m.raw[key] == value && key in m.flat && key in m.sources && m.sources[key] == source
           && m.flat[key] == (if rules.sensitive(key) then "[REDACTED_SECRET: USE_ENV_OR_LOCAL_FALLBACK]" else value))
      && ((forall i :: 0 <= i < |pairs| ==> pairs[i].0 != key) ==>
           (key in m.raw <==> key in r.raw) && (key in r.raw ==> m.raw[key] == r.raw[key] && m.flat[key] == r.flat[key])
           && (key in m.sources <==> key in r.sources) && (key in r.sources ==> m.sources[key] == r.sources[key]))
  {
    hide InsertAll, LastPair;
    if LastPair(pairs, key, value) {
      InsertAllLast(rules, EMPTY, pairs, key, value);
    }
    if forall i :: 0 <= i < |pairs| ==> pairs[i].0 != key {
      InsertAllOther(rules, EMPTY, pairs, key);
    }
  }

  /** Removing files removes the keys they gave last, and no others. */
  lemma RemovedFiles(rules: Rules, r: Registry, paths: set<string>, key: string)
    ensures
      var m := Apply(rules, r, Remove(paths));
      var gone := key in r.sources && r.sources[key] in paths;
      && (key in m.raw <==> key in r.raw && !gone) && (key in m.flat <==> key in r.flat && !gone)
      && (key in m.raw ==> m.raw[key] == r.raw[key]) && (key in m.flat ==> m.flat[key] == r.flat[key])
  {
  }

  /**
   * What a value shows once resolved: a sensitive key the mask, `${t}` and `${t:d}` the value of `t` or its mask; when
   * `t` is not given, `${t:d}` the default, masked for a sensitive `t`, and `${t}` its own text.
   */
  lemma FreshAsText(rules: Rules, raw: Values, k: string, t: string, d: string)
    requires k in raw && ':' !in t
    ensures rules.sensitive(k) ==> Fresh(rules, raw, k) == "[REDACTED_SECRET: USE_ENV_OR_LOCAL_FALLBACK]"
    ensures
      var named := rules.trim(t);
      !rules.sensitive(k) && (raw[k] == "${" + t + "}" || raw[k] == "${" + t + ":" + d + "}") && named in raw ==>
        Fresh(rules, raw, k) == if rules.sensitive(named) then REDACTED else raw[named]
    ensures
      var named := rules.trim(t);
      !rules.sensitive(k) && raw[k] == "${" + t + ":" + d + "}" && named !in raw ==>
        Fresh(rules, raw, k) == if rules.sensitive(named) then REDACTED else rules.trim(d)
    ensures !rules.sensitive(k) && raw[k] == "${" + t + "}" && rules.trim(t) !in raw ==> Fresh(rules, raw, k) == raw[k]
    ensures !rules.sensitive(k) && !("${" <= raw[k]) ==> Fresh(rules, raw, k) == raw[k]
  {
    hide Placeholder;
    PlaceholderText(rules, t, d);
    NoPlaceholder(rules, raw[k]);
  }
}
