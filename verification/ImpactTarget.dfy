/** The direct answer of an impact query: which topics, producers, consumers and sagas a target names. */
module ImpactTarget {
  import opened Text
  import opened GraphModel
  import opened TopicPass
  import opened Impact

  // ------------------------------------------------------------------ matching

  /** `s.contains(p)`. */
  predicate Contains(s: string, p: string) {
    exists i :: 0 <= i <= |s| && p <= s[i..]
  }

  /** The same, ignoring ASCII case. */
  predicate ContainsIgnoreCase(s: string, p: string) {
    Contains(AsciiLower(s), AsciiLower(p))
  }

  /** The separators of an event's value, spelled as in a constant's name. */
  function Underscored(s: string): (r: string)
    ensures |r| == |s| && forall i :: 0 <= i < |s| ==> r[i] == if s[i] in {'.', ':', '-', '/'} then '_' else s[i]
  {
    if s == "" then "" else [if s[0] in {'.', ':', '-', '/'} then '_' else s[0]] + Underscored(s[1..])
  }

  predicate AnyKey(f: Facts, part: string) {
    exists key :: key in TopicKeys(f) && Contains(key, part)
  }

  /** The target as a topic key: as written, or with underscores when only that spelling matches a key. */
  function TargetKey(lib: Lib, f: Facts, target: string): string {
    var key := lib.topicKey(target);
    var alt := Underscored(key);
    if !AnyKey(f, key) && alt != key && AnyKey(f, alt) then alt else key
  }

  /** A key that is the target wins over keys that merely contain it. */
  predicate KeyMatches(f: Facts, norm: string, key: string) {
    if norm in TopicKeys(f) then key == norm else Contains(key, norm)
  }

  /** The topic a pattern node is named after. */
  function PatternTopic(name: string): Option<string> {
    if "produce:" <= name then Some(name[8..]) else if "consume:" <= name then Some(name[8..]) else None
  }

  predicate Interesting(kind: NodeKind) {
    StreamLike(kind) || kind.Saga? || kind.PostProcessor?
  }

  predicate NodeMatches(lib: Lib, f: Facts, norm: string, n: Node) {
    var pattern := PatternTopic(n.name);
    && Interesting(n.kind)
    && if norm in TopicKeys(f) && (pattern.Some? || StreamLike(n.kind))
       then lib.topicKey(if pattern.Some? then pattern.value else n.name) == norm
       else ContainsIgnoreCase(n.name, norm)
  }

  // ------------------------------------------------------------------ the operation

  /** The node is registered under a key the target matches. */
  ghost predicate Registered(f: Facts, norm: string, index: Buckets, id: Id) {
    exists key :: key in index && KeyMatches(f, norm, key) && id in index[key]
  }

  /** The live registrations under the matching keys, key by key and in registration order under each. */
  function Registrations(nodes: Table, f: Facts, norm: string, index: Buckets, keys: seq<string>): seq<Id> {
    if keys == [] then []
    else
      var last := keys[|keys| - 1];
      Registrations(nodes, f, norm, index, keys[..|keys| - 1])
      + if KeyMatches(f, norm, last) then Live(nodes, At(index, last)) else []
  }

  ghost predicate InKeyOrder(nodes: Table, f: Facts, norm: string, index: Buckets, ids: seq<Id>) {
    exists keys ::
      StrictlySorted(keys) && (forall key :: key in keys <==> key in index)
      && ids == Registrations(nodes, f, norm, index, keys)
  }

  lemma {:induction false} RegistrationsMember(nodes: Table, f: Facts, norm: string, index: Buckets, keys: seq<string>,
        id: Id)
    ensures id in Registrations(nodes, f, norm, index, keys)
       <==> id in nodes && exists j :: 0 <= j < |keys| && KeyMatches(f, norm, keys[j]) && id in At(index, keys[j])
  {
    if keys != [] {
      hide KeyMatches, At;
      var n := |keys| - 1;
      RegistrationsMember(nodes, f, norm, index, keys[..n], id);
      LiveMember(nodes, At(index, keys[n]), id);
      forall j | 0 <= j < n ensures keys[..n][j] == keys[j] {}
    }
  }

  /** The live registrations under the matching keys. */
  method Listed(nodes: Table, f: Facts, norm: string, index: Buckets) returns (ids: seq<Id>)
    ensures forall id :: id in ids <==> id in nodes && Registered(f, norm, index, id)
    ensures InKeyOrder(nodes, f, norm, index, ids)
  {
    hide KeyMatches;
    var keys := SortedKeys(index.Keys);
    ids := [];
    for i := 0 to |keys|
      invariant ids == Registrations(nodes, f, norm, index, keys[..i])
    {
      assert keys[..i + 1][..i] == keys[..i];
      assert keys[i] in keys;
      if KeyMatches(f, norm, keys[i]) {
        ids := ids + Live(nodes, index[keys[i]]);
      }
    }
    assert keys[..|keys|] == keys;
    forall id ensures id in ids <==> id in nodes && Registered(f, norm, index, id) {
      RegistrationsMember(nodes, f, norm, index, keys, id);
      if id in nodes && Registered(f, norm, index, id) {
        var key :| key in index && KeyMatches(f, norm, key) && id in index[key];
        assert key in keys;
      }
    }
  }

  /** What the direct answer lists. */
  ghost predicate Answers(lib: Lib, nodes: Table, f: Facts, norm: string, d: Direct) {
    && (forall id :: id in d.upstream <==> id in nodes && Registered(f, norm, f.producers, id))
    && (forall id ::
         id in d.topics <==> id in nodes && NodeMatches(lib, f, norm, nodes[id]) && StreamLike(nodes[id].kind))
    && (forall id :: id in d.sagas <==> id in nodes && NodeMatches(lib, f, norm, nodes[id]) && nodes[id].kind.Saga?)
    && (forall id ::
         id in d.consumers
         <==> id in nodes && (Registered(f, norm, f.consumers, id) || Processor(lib, nodes, f, norm, id)))
  }

  ghost predicate Processor(lib: Lib, nodes: Table, f: Facts, norm: string, id: Id) {
    id in nodes && NodeMatches(lib, f, norm, nodes[id]) && nodes[id].kind.PostProcessor?
  }

  predicate Ascending(ids: seq<Id>) {
    forall i, j :: 0 <= i < j < |ids| ==> ids[i] < ids[j]
  }

  /**
   * Registrations come in key order; the first `n` consumers are registrations, and scanned nodes follow in id order.
   */
  ghost predicate InOrder(lib: Lib, nodes: Table, f: Facts, norm: string, d: Direct, n: nat) {
    && InKeyOrder(nodes, f, norm, f.producers, d.upstream) && Ascending(d.topics) && Ascending(d.sagas)
    && n <= |d.consumers| && InKeyOrder(nodes, f, norm, f.consumers, d.consumers[..n]) && Ascending(d.consumers[n..])
    && forall id :: id in d.consumers[n..] <==> Processor(lib, nodes, f, norm, id)
  }

  /** The direct answer: registrations under matching keys, then matching topic, saga and processor nodes. */
  method AnalyzeImpact(lib: Lib, nodes: Table, bound: nat, f: Facts, target: string) returns (d: Direct)
    requires Below(nodes, bound)
    ensures Answers(lib, nodes, f, TargetKey(lib, f, target), d) && LiveDirect(nodes, d)
    ensures exists n: nat :: InOrder(lib, nodes, f, TargetKey(lib, f, target), d, n)
  {
    hide NodeMatches, Registered, TargetKey, InKeyOrder;
    var norm := TargetKey(lib, f, target);
    var upstream := Listed(nodes, f, norm, f.producers);
    var registered := Listed(nodes, f, norm, f.consumers);
    var topics: seq<Id>, sagas: seq<Id>, processors: seq<Id> := [], [], [];
    for id := 0 to bound
      invariant forall x ::
        x in topics <==> x < id && x in nodes && NodeMatches(lib, f, norm, nodes[x]) && StreamLike(nodes[x].kind)
      invariant forall x ::
        x in sagas <==> x < id && x in nodes && NodeMatches(lib, f, norm, nodes[x]) && nodes[x].kind.Saga?
      invariant forall x: Id :: x in processors <==> x < id && Processor(lib, nodes, f, norm, x)
      invariant Ascending(topics) && Ascending(sagas) && Ascending(processors)
    {
      if id in nodes && NodeMatches(lib, f, norm, nodes[id]) {
        MatchedKind(lib, f, norm, nodes[id]);
        if StreamLike(nodes[id].kind) {
          AscendingLast(topics, id);
          topics := topics + [id];
        } else if nodes[id].kind.Saga? {
          AscendingLast(sagas, id);
          sagas := sagas + [id];
        } else {
          AscendingLast(processors, id);
          processors := processors + [id];
        }
      }
    }
    d := Direct(upstream, topics, registered + processors, sagas);
    assert d.consumers[..|registered|] == registered && d.consumers[|registered|..] == processors;
    assert InOrder(lib, nodes, f, norm, d, |registered|);
  }

  lemma AscendingLast(ids: seq<Id>, id: Id)
    requires Ascending(ids) && forall x :: x in ids ==> x < id
    ensures Ascending(ids + [id])
  {
    forall i | 0 <= i < |ids| ensures ids[i] < id { assert ids[i] in ids; }
  }

  lemma MatchedKind(lib: Lib, f: Facts, norm: string, n: Node)
    requires NodeMatches(lib, f, norm, n)
    ensures StreamLike(n.kind) || n.kind.Saga? || n.kind.PostProcessor?
  {
  }

  // ------------------------------------------------------------------ hubs and their keys

  /** What an exact target is compared with at the hub of a key. */
  function HubTopic(lib: Lib, key: string): string {
    lib.topicKey(match PatternTopic(key) case Some(topic) => topic case None => key)
  }

  /** The hub of the key matches the target if and only if the key does. */
  ghost predicate MatchAlike(lib: Lib, f: Facts, norm: string, key: string) {
    NodeMatches(lib, f, norm, Hub(key)) <==> KeyMatches(f, norm, key)
  }

  /**
   * For lower-case targets and keys, the hub matches as the key does if and only if the target is no key of the
   * registry, or it is compared with the target at the hub just when it is the target.
   */
  lemma HubMatchIsKeyMatch(lib: Lib, f: Facts, norm: string, key: string)
    requires AsciiLower(norm) == norm && AsciiLower(key) == key
    ensures MatchAlike(lib, f, norm, key) <==> norm !in TopicKeys(f) || (HubTopic(lib, key) == norm <==> key == norm)
  {
    hide Contains, PatternTopic;
  }

  /**
   * A key is matched like its hub by every target in every registry that has it, if and only if the hub is compared by
   * it.
   */
  lemma SpelledExactly(lib: Lib, key: string)
    requires AsciiLower(key) == key
    ensures HubTopic(lib, key) == key
       <==> forall f, norm :: key in TopicKeys(f) && AsciiLower(norm) == norm ==> MatchAlike(lib, f, norm, key)
  {
    hide NodeMatches, KeyMatches, PatternTopic, HubTopic, MatchAlike;
    forall f, norm | key in TopicKeys(f) && AsciiLower(norm) == norm
      ensures MatchAlike(lib, f, norm, key) <==> norm !in TopicKeys(f) || (HubTopic(lib, key) == norm <==> key == norm)
    {
      HubMatchIsKeyMatch(lib, f, norm, key);
    }
    var alone := Facts(map[], map[key := [0]], map[], [], {});
    assert key in TopicKeys(alone);
    assert MatchAlike(lib, alone, key, key) ==> HubTopic(lib, key) == key;
  }

  lemma UnderscoredLower(s: string)
    requires AsciiLower(s) == s
    ensures AsciiLower(Underscored(s)) == Underscored(s)
  {
    forall i | 0 <= i < |s| ensures AsciiLower(Underscored(s))[i] == Underscored(s)[i] {
      assert AsciiLower(s)[i] == s[i];
    }
  }

  /** A normalised target is in lower case, whichever spelling is picked. */
  lemma TargetLower(lib: Lib, f: Facts, target: string)
    requires AsciiLower(lib.topicKey(target)) == lib.topicKey(target)
    ensures AsciiLower(TargetKey(lib, f, target)) == TargetKey(lib, f, target)
  {
    hide AnyKey;
    UnderscoredLower(lib.topicKey(target));
  }

  /**
   * A key spelled like a pattern node's name is matched by the topic after the prefix, although the key does not match.
   */
  lemma PrefixedKeyMismatch(lib: Lib, f: Facts, norm: string)
    requires norm in TopicKeys(f) && lib.topicKey(norm) == norm
    ensures NodeMatches(lib, f, norm, Hub("produce:" + norm)) && !KeyMatches(f, norm, "produce:" + norm)
    ensures NodeMatches(lib, f, norm, Hub("consume:" + norm)) && !KeyMatches(f, norm, "consume:" + norm)
  {
    var p, c := "produce:" + norm, "consume:" + norm;
    assert p[8..] == norm && |p| != |norm| && c[8..] == norm && |c| != |norm|;
    assert "produce:" <= p && "consume:" <= c && c[0] != "produce:"[0];
  }

  /**
   * A key that a second normalisation changes, such as `typeof x`, matches itself although its hub does not match it.
   */
  lemma UnfixedKeyMismatch(lib: Lib, f: Facts, key: string)
    requires key in TopicKeys(f) && PatternTopic(key).None? && lib.topicKey(key) != key
    ensures KeyMatches(f, key, key) && !NodeMatches(lib, f, key, Hub(key))
  {
    hide PatternTopic;
  }

  // ------------------------------------------------------------------ what a target finds

  /** A text contains another exactly when it is that text between two others. */
  lemma ContainsMeans(s: string, p: string)
    ensures Contains(s, p) <==> exists a, b :: s == a + p + b
  {
    if Contains(s, p) {
      var i :| 0 <= i <= |s| && p <= s[i..];
      assert s == s[..i] + p + s[i + |p|..];
    }
    if a, b :| s == a + p + b {
      assert s[|a|..] == p + b;
    }
  }

  lemma LowerBetween(a: string, p: string, b: string)
    ensures AsciiLower(a + p + b) == AsciiLower(a) + AsciiLower(p) + AsciiLower(b)
  {
  }

  /** A target that is no key finds every key it stands in: its registrations, live ones all, and its hub. */
  lemma StandsInKey(lib: Lib, nodes: Table, f: Facts, norm: string, d: Direct, a: string, b: string, id: Id)
    requires Answers(lib, nodes, f, norm, d) && norm !in TopicKeys(f) && id in nodes
    ensures id in At(f.producers, a + norm + b) ==> id in d.upstream
    ensures id in At(f.consumers, a + norm + b) ==> id in d.consumers
    ensures nodes[id] == Hub(a + norm + b) ==> id in d.topics
  {
    hide Contains;
    var key := a + norm + b;
    ContainsMeans(key, norm);
    assert KeyMatches(f, norm, key);
    assert id in At(f.producers, key) ==> key in f.producers && id in f.producers[key];
    assert id in At(f.consumers, key) ==> key in f.consumers && id in f.consumers[key];
    ContainsMeans(AsciiLower(key), AsciiLower(norm));
    LowerBetween(a, norm, b);
  }

  /** It finds nothing registered under keys it does not stand in. */
  lemma FoundStandsIn(lib: Lib, nodes: Table, f: Facts, norm: string, d: Direct, id: Id)
    requires Answers(lib, nodes, f, norm, d) && norm !in TopicKeys(f) && id in d.upstream
    ensures exists a, b :: id in At(f.producers, a + norm + b)
  {
    hide Contains;
    var key :| key in f.producers && KeyMatches(f, norm, key) && id in f.producers[key];
    ContainsMeans(key, norm);
    var a, b :| key == a + norm + b;
    assert id in At(f.producers, a + norm + b);
  }

  /** A target that is a key finds that key's registrations and no others. */
  lemma ExactKey(lib: Lib, nodes: Table, f: Facts, norm: string, d: Direct, id: Id)
    requires Answers(lib, nodes, f, norm, d) && norm in TopicKeys(f) && id in nodes
    ensures id in d.upstream <==> id in At(f.producers, norm)
    ensures nodes[id].kind != PostProcessor ==> (id in d.consumers <==> id in At(f.consumers, norm))
  {
    hide Contains;
    assert id in At(f.producers, norm) ==> norm in f.producers && id in f.producers[norm];
    assert id in At(f.consumers, norm) ==> norm in f.consumers && id in f.consumers[norm];
  }

  /** Sagas and processors are found by any part of their name, letter case apart, unless named after another topic. */
  lemma NamedInPart(lib: Lib, nodes: Table, f: Facts, norm: string, d: Direct, a: string, p: string, b: string, id: Id)
    requires Answers(lib, nodes, f, norm, d) && id in nodes && nodes[id].name == a + p + b
    requires AsciiLower(p) == AsciiLower(norm) && !("produce:" <= a + p + b) && !("consume:" <= a + p + b)
    ensures nodes[id].kind == Saga ==> id in d.sagas
    ensures nodes[id].kind == PostProcessor ==> id in d.consumers
  {
    hide Contains;
    ContainsMeans(AsciiLower(a + p + b), AsciiLower(norm));
    LowerBetween(a, p, b);
  }

  /** The target's own spelling is used when some key contains it; else the spelling with underscores, when one does. */
  lemma SpellingPicked(lib: Lib, f: Facts, target: string, key: string, a: string, b: string)
    requires key in TopicKeys(f)
    ensures key == a + lib.topicKey(target) + b ==> TargetKey(lib, f, target) == lib.topicKey(target)
    ensures StandsNowhere(f, lib.topicKey(target)) && key == a + Underscored(lib.topicKey(target)) + b ==>
      TargetKey(lib, f, target) == Underscored(lib.topicKey(target))
  {
    hide Contains, Underscored, TopicKeys;
    forall k { ContainsMeans(k, lib.topicKey(target)); }
    ContainsMeans(key, Underscored(lib.topicKey(target)));
  }

  ghost predicate StandsNowhere(f: Facts, part: string) {
    forall key, a, b :: key in TopicKeys(f) ==> key != a + part + b
  }
}
