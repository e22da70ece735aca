/** Stages 2 and 3 of `reconcile_edges`: the edges of one topic hub. */
module TopicPass {
  import opened Text
  import opened GraphModel
  import opened Subjects
  import opened EdgeLog

  /** Most producers one wildcard subscription is linked to. */
  const MAX_WILDCARD_PRODUCERS: nat := 256

  function TopicConfidence(f: Facts, id: Id): Confidence {
    if id in f.heuristic then Heuristic else Exact
  }

  function TopicKeys(f: Facts): set<string> {
    f.producers.Keys + f.consumers.Keys
  }

  /** Some consumer of the key is on a transport that has subject wildcards. */
  predicate SubjectConsumer(nodes: Table, consumers: seq<Id>) {
    exists i :: 0 <= i < |consumers| && (consumers[i] in nodes ==> !(nodes[consumers[i]].kind in {KafkaTopic, Queue}))
  }

  predicate Wildcard(nodes: Table, f: Facts, key: string) {
    IsPattern(key) && SubjectConsumer(nodes, At(f.consumers, key))
  }

  /** Subscription `key` hears producer `p` through the concrete subject `s`. */
  predicate HeardOn(f: Facts, key: string, s: string, p: Id) {
    !IsPattern(s) && Subjects.Matches(key, s) && p in At(f.producers, s) && p !in At(f.consumers, key)
  }

  /** The producers a wildcard subscription adds to the directly registered ones. */
  function Heard(f: Facts, key: string): set<Id> {
    set s, p | s in f.producers && p in f.producers[s] && HeardOn(f, key, s, p) && p !in At(f.producers, key) :: p
  }

  ghost predicate LeastSubject(f: Facts, key: string, s: string, p: Id) {
    HeardOn(f, key, s, p) && forall s' :: HeardOn(f, key, s', p) ==> s' == s || Less(s, s')
  }

  /** Producer `p` stands at place `i` of the bucket of a concrete subject the subscription hears it on. */
  ghost predicate HeardAt(f: Facts, key: string, s: string, i: nat, p: Id) {
    HeardOn(f, key, s, p) && i < |At(f.producers, s)| && At(f.producers, s)[i] == p
  }

  /** In subject order and then bucket order. */
  ghost predicate PlaceBefore(s: string, i: nat, t: string, j: nat) {
    Less(s, t) || (s == t && i < j)
  }

  /** Some place of `q` comes before every place of `p`. */
  ghost predicate Earlier(f: Facts, key: string, q: Id, p: Id) {
    exists s, i: nat :: HeardAt(f, key, s, i, q) && PlacedFirst(f, key, s, i, p)
  }

  ghost predicate PlacedFirst(f: Facts, key: string, s: string, i: nat, p: Id) {
    forall t, j: nat :: HeardAt(f, key, t, j, p) ==> PlaceBefore(s, i, t, j)
  }

  ghost function EarlierThan(f: Facts, key: string, p: Id): set<Id> {
    set q | q in Heard(f, key) && Earlier(f, key, q, p)
  }

  /** The producers a wildcard subscription keeps: the first 256 it hears, in subject and then bucket order. */
  ghost function Kept(f: Facts, key: string): set<Id> {
    set p | p in Heard(f, key) && |EarlierThan(f, key, p)| < MAX_WILDCARD_PRODUCERS
  }

  ghost predicate DirectEdge(f: Facts, key: string, hub: Id, e: Edge) {
    || (e.from in At(f.producers, key) && e == Edge(e.from, hub, Produces, key, TopicConfidence(f, e.from)))
    || (e.to in At(f.consumers, key) && e == Edge(hub, e.to, Consumes, key, TopicConfidence(f, e.to)))
  }

  ghost predicate WildcardEdge(f: Facts, key: string, hub: Id, e: Edge) {
    && e.from in Kept(f, key)
    && LeastSubject(f, key, e.metadata, e.from)
    && e == Edge(e.from, hub, Produces, e.metadata, Heuristic)
  }

  /** Every edge of the hub of `key`: direct registrations, then what a wildcard subscription keeps. */
  ghost predicate TopicEdge(nodes: Table, f: Facts, key: string, hub: Id, e: Edge) {
    DirectEdge(f, key, hub, e) || (Wildcard(nodes, f, key) && WildcardEdge(f, key, hub, e))
  }

  predicate StrictlySorted(keys: seq<string>) {
    forall i, j :: 0 <= i < j < |keys| ==> Less(keys[i], keys[j])
  }

  method InsertKey(keys: seq<string>, key: string) returns (r: seq<string>)
    requires StrictlySorted(keys) && key !in keys
    ensures StrictlySorted(r)
    ensures forall k :: k in r <==> k in keys || k == key
  {
    var i := |keys|;
    while i > 0 && Less(key, keys[i - 1])
      invariant 0 <= i <= |keys|
      invariant forall j :: i <= j < |keys| ==> Less(key, keys[j])
    {
      i := i - 1;
    }
    r := keys[..i] + [key] + keys[i..];
    if i > 0 {
      LessTotal(key, keys[i - 1]);
      forall j | 0 <= j < i ensures Less(keys[j], key) {
        if j < i - 1 { LessTransitive(keys[j], keys[i - 1], key); }
      }
    }
  }

  /** The keys, sorted. */
  method SortedKeys(keys: set<string>) returns (r: seq<string>)
    ensures StrictlySorted(r)
    ensures forall k :: k in r <==> k in keys
  {
    r := [];
    var todo := keys;
    while todo != {}
      invariant todo <= keys
      invariant StrictlySorted(r)
      invariant forall k :: k in r <==> k in keys && k !in todo
    {
      var k :| k in todo;
      r := InsertKey(r, k);
      todo := todo - {k};
    }
  }

  /** The non-pattern keys that have producers, sorted. */
  method ConcreteSubjects(producers: Buckets) returns (r: seq<string>)
    ensures StrictlySorted(r)
    ensures forall k :: k in r <==> k in producers && !IsPattern(k)
  {
    hide IsPattern;
    var concrete: set<string>, todo := {}, producers.Keys;
    while todo != {}
      invariant todo <= producers.Keys
      invariant forall k :: k in concrete <==> k in producers && k !in todo && !IsPattern(k)
    {
      var k :| k in todo;
      var pattern := IsSubjectPattern(k);
      if !pattern {
        concrete := concrete + {k};
      }
      todo := todo - {k};
    }
    r := SortedKeys(concrete);
  }

  /** Nothing has been linked to or from the hub yet. */
  ghost predicate Untouched(log: Log, hub: Id) {
    && (forall p :: (p, hub, Produces) !in log.seen)
    && (forall c :: (hub, c, Consumes) !in log.seen)
  }

  /** Only keys of the hub were added to the log. */
  ghost predicate OnlyHub(log: Log, r: Log, hub: Id) {
    forall k :: k in r.seen && k !in log.seen ==> (k.1 == hub && k.2 == Produces) || (k.0 == hub && k.2 == Consumes)
  }

  method LinkDirect(f: Facts, key: string, hub: Id, log: Log) returns (r: Log)
    requires log.Ok() && Untouched(log, hub)
    ensures r.Ok() && log.edges <= r.edges && OnlyHub(log, r, hub)
    ensures forall e :: e in r.edges <==> e in log.edges || DirectEdge(f, key, hub, e)
    ensures forall p :: (p, hub, Produces) in r.seen <==> p in At(f.producers, key)
  {
    hide Log.Ok;
    r := LinkProducers(f, key, hub, At(f.producers, key), log);
    r := LinkConsumers(f, key, hub, At(f.consumers, key), r);
  }

  method LinkProducers(f: Facts, key: string, hub: Id, producers: seq<Id>, log: Log) returns (r: Log)
    requires log.Ok() && Untouched(log, hub)
    ensures r.Ok() && log.edges <= r.edges && OnlyHub(log, r, hub)
    ensures forall c :: (hub, c, Consumes) !in r.seen
    ensures forall p :: (p, hub, Produces) in r.seen <==> p in producers
    ensures forall e ::
      e in r.edges <==> e in log.edges || (e.from in producers && e == ProducesEdge(f, key, e.from, hub))
  {
    hide TopicConfidence, Log.Ok, ProducesEdge;
    r := log;
    for i := 0 to |producers|
      invariant r.Ok() && log.edges <= r.edges && OnlyHub(log, r, hub)
      invariant forall c :: (hub, c, Consumes) !in r.seen
      invariant forall p :: (p, hub, Produces) in r.seen <==> p in producers[..i]
      invariant forall e ::
        e in r.edges <==> e in log.edges || (e.from in producers[..i] && e == ProducesEdge(f, key, e.from, hub))
    {
      r := r.Emit(ProducesEdge(f, key, producers[i], hub));
      assert producers[..i + 1] == producers[..i] + [producers[i]];
    }
    assert producers[..|producers|] == producers;
  }

  method LinkConsumers(f: Facts, key: string, hub: Id, consumers: seq<Id>, log: Log) returns (r: Log)
    requires log.Ok() && forall c :: (hub, c, Consumes) !in log.seen
    ensures r.Ok() && log.edges <= r.edges && OnlyHub(log, r, hub)
    ensures forall p :: (p, hub, Produces) in r.seen <==> (p, hub, Produces) in log.seen
    ensures forall e :: e in r.edges <==> e in log.edges || (e.to in consumers && e == ConsumesEdge(f, key, hub, e.to))
  {
    hide TopicConfidence, Log.Ok, ConsumesEdge;
    r := log;
    for i := 0 to |consumers|
      invariant r.Ok() && log.edges <= r.edges && OnlyHub(log, r, hub)
      invariant forall p :: (p, hub, Produces) in r.seen <==> (p, hub, Produces) in log.seen
      invariant forall c :: (hub, c, Consumes) in r.seen <==> c in consumers[..i]
      invariant forall e ::
        e in r.edges <==> e in log.edges || (e.to in consumers[..i] && e == ConsumesEdge(f, key, hub, e.to))
    {
      r := r.Emit(ConsumesEdge(f, key, hub, consumers[i]));
      assert consumers[..i + 1] == consumers[..i] + [consumers[i]];
    }
    assert consumers[..|consumers|] == consumers;
  }

  function ProducesEdge(f: Facts, key: string, p: Id, hub: Id): (e: Edge)
    ensures e.from == p && KeyOf(e) == (p, hub, Produces)
  {
    Edge(p, hub, Produces, key, TopicConfidence(f, p))
  }

  function ConsumesEdge(f: Facts, key: string, hub: Id, c: Id): (e: Edge)
    ensures e.to == c && KeyOf(e) == (hub, c, Consumes)
  {
    Edge(hub, c, Consumes, key, TopicConfidence(f, c))
  }

  // ------------------------------------------------------------------ the order of what is heard

  /** Every heard producer has a first place. */
  lemma FirstPlace(f: Facts, key: string, p: Id) returns (s: string, i: nat)
    requires p in Heard(f, key)
    ensures HeardAt(f, key, s, i, p)
    ensures forall t, j: nat :: HeardAt(f, key, t, j, p) ==> (t == s && j == i) || PlaceBefore(s, i, t, j)
  {
    hide IsPattern, Subjects.Matches;
    var subjects := set t | t in f.producers && HeardOn(f, key, t, p);
    var heard :| heard in f.producers && HeardOn(f, key, heard, p);
    assert heard in subjects;
    s := LeastString(subjects);
    i := FirstIndex(At(f.producers, s), p);
    forall t, j: nat | HeardAt(f, key, t, j, p) ensures (t == s && j == i) || PlaceBefore(s, i, t, j) {
      assert t in subjects;
      LessTotal(s, t);
    }
  }

  lemma FirstIndex(ids: seq<Id>, p: Id) returns (i: nat)
    requires p in ids
    ensures i < |ids| && ids[i] == p && forall j :: 0 <= j < |ids| && ids[j] == p ==> i <= j
  {
    i := 0;
    while ids[i] != p
      invariant i < |ids| && forall j :: 0 <= j < i ==> ids[j] != p
      invariant p in ids[i..]
      decreases |ids| - i
    {
      assert p in ids[i + 1..];
      i := i + 1;
    }
  }

  /** Of two heard producers one comes earlier. */
  lemma EarlierTotal(f: Facts, key: string, p: Id, q: Id)
    requires p in Heard(f, key) && q in Heard(f, key) && p != q
    ensures Earlier(f, key, p, q) || Earlier(f, key, q, p)
  {
    hide Heard, HeardOn;
    var s, i := FirstPlace(f, key, p);
    var t, j := FirstPlace(f, key, q);
    LessTotal(s, t);
    if PlaceBefore(s, i, t, j) {
      PlaceBeforeAll(f, key, s, i, t, j, q);
    } else {
      PlaceBeforeAll(f, key, t, j, s, i, p);
    }
  }

  lemma PlaceBeforeAll(f: Facts, key: string, s: string, i: nat, t: string, j: nat, q: Id)
    requires PlaceBefore(s, i, t, j)
    requires forall t', j': nat :: HeardAt(f, key, t', j', q) ==> (t' == t && j' == j) || PlaceBefore(t, j, t', j')
    ensures PlacedFirst(f, key, s, i, q)
  {
    hide HeardAt;
    forall t', j': nat | HeardAt(f, key, t', j', q) ensures PlaceBefore(s, i, t', j') {
      if Less(s, t) && Less(t, t') {
        LessTransitive(s, t, t');
      }
    }
  }

  lemma NotEarlierThanItself(f: Facts, key: string, p: Id)
    ensures !Earlier(f, key, p, p)
  {
    hide HeardOn;
    forall s, i: nat | HeardAt(f, key, s, i, p) ensures !PlacedFirst(f, key, s, i, p) {
      LessTotal(s, s);
      assert !PlaceBefore(s, i, s, i);
    }
  }

  /** `heard` is an initial part of the order. */
  ghost predicate Initial(f: Facts, key: string, heard: set<Id>) {
    forall p, q :: p in heard && q in Heard(f, key) && Earlier(f, key, q, p) ==> q in heard
  }

  /** An initial part that is everything, or is full, is what is kept. */
  lemma InitialIsKept(f: Facts, key: string, heard: set<Id>)
    requires heard <= Heard(f, key) && Initial(f, key, heard) && |heard| <= MAX_WILDCARD_PRODUCERS
    requires heard == Heard(f, key) || |heard| == MAX_WILDCARD_PRODUCERS
    ensures heard == Kept(f, key)
  {
    hide Heard, Earlier;
    forall p | p in heard ensures p in Kept(f, key) {
      NotEarlierThanItself(f, key, p);
      assert EarlierThan(f, key, p) <= heard - {p};
      SubsetSize(EarlierThan(f, key, p), heard - {p});
    }
    forall p | p in Kept(f, key) ensures p in heard {
      if p !in heard {
        forall q | q in heard ensures q in EarlierThan(f, key, p) {
          EarlierTotal(f, key, p, q);
        }
        SubsetSize(heard, EarlierThan(f, key, p));
      }
    }
  }

  /** Below the cap everything is kept. */
  lemma AllKept(f: Facts, key: string)
    requires |Heard(f, key)| <= MAX_WILDCARD_PRODUCERS
    ensures Kept(f, key) == Heard(f, key)
  {
    hide Heard, Earlier;
    InitialIsKept(f, key, Heard(f, key));
  }

  lemma EarlierTransitive(f: Facts, key: string, p: Id, q: Id, r: Id)
    requires Earlier(f, key, p, q) && Earlier(f, key, q, r)
    ensures Earlier(f, key, p, r)
  {
    hide HeardOn;
    var s, i: nat :| HeardAt(f, key, s, i, p) && PlacedFirst(f, key, s, i, q);
    var t, j: nat :| HeardAt(f, key, t, j, q) && PlacedFirst(f, key, t, j, r);
    assert PlaceBefore(s, i, t, j);
    forall t', j': nat | HeardAt(f, key, t', j', r) ensures PlaceBefore(s, i, t', j') {
      assert PlaceBefore(t, j, t', j');
      if Less(s, t) && Less(t, t') {
        LessTransitive(s, t, t');
      }
    }
    assert PlacedFirst(f, key, s, i, r);
  }

  /** Some member of a set of heard producers has no other member before it. */
  lemma {:induction false} Foremost(f: Facts, key: string, rest: set<Id>) returns (p: Id)
    requires rest != {} && rest <= Heard(f, key)
    ensures p in rest && forall q :: q in rest ==> !Earlier(f, key, q, p)
    decreases |rest|
  {
    hide Heard, Earlier;
    p :| p in rest;
    NotEarlierThanItself(f, key, p);
    if q :| q in rest && Earlier(f, key, q, p) {
      NotEarlierThanItself(f, key, q);
      var ahead := set x | x in rest && Earlier(f, key, x, p);
      assert p !in ahead;
      SubsetSize(ahead, rest - {p});
      var first := Foremost(f, key, ahead);
      forall x | x in rest ensures !Earlier(f, key, x, first) {
        if Earlier(f, key, x, first) {
          EarlierTransitive(f, key, x, first, p);
        }
      }
      p := first;
    }
  }

  /** The order has an initial part of every size. */
  lemma {:induction false} InitialPart(f: Facts, key: string, n: nat) returns (part: set<Id>)
    requires n <= |Heard(f, key)|
    ensures part <= Heard(f, key) && Initial(f, key, part) && |part| == n
  {
    hide Heard, Earlier;
    part := {};
    if n > 0 {
      var before := InitialPart(f, key, n - 1);
      var rest := Heard(f, key) - before;
      assert before + rest == Heard(f, key);
      assert rest != {};
      var p := Foremost(f, key, rest);
      part := before + {p};
    }
  }

  /** As many producers are kept as are heard, up to the cap. */
  lemma KeptCount(f: Facts, key: string)
    ensures |Kept(f, key)| == if |Heard(f, key)| <= MAX_WILDCARD_PRODUCERS then |Heard(f, key)|
      else MAX_WILDCARD_PRODUCERS
  {
    hide Heard, Kept;
    if |Heard(f, key)| <= MAX_WILDCARD_PRODUCERS {
      AllKept(f, key);
    } else {
      var part := InitialPart(f, key, MAX_WILDCARD_PRODUCERS);
      InitialIsKept(f, key, part);
    }
  }

  // ------------------------------------------------------------------ the wildcard loop

  /** The state of the wildcard loop: exactly the producers in `heard` are linked beyond the direct ones. */
  ghost predicate Hearing(f: Facts, key: string, hub: Id, direct: Log, r: Log, heard: set<Id>) {
    && r.Ok() && direct.edges <= r.edges && OnlyHub(direct, r, hub)
    && heard <= Heard(f, key) && Initial(f, key, heard)
    && (forall p :: (p, hub, Produces) in r.seen <==> p in At(f.producers, key) || p in heard)
    && (forall e :: e in r.edges <==> e in direct.edges || (e.from in heard && HeardEdge(f, key, hub, e)))
  }

  /** The edge of a heard producer, by its least subject. */
  ghost predicate HeardEdge(f: Facts, key: string, hub: Id, e: Edge) {
    LeastSubject(f, key, e.metadata, e.from) && e == Edge(e.from, hub, Produces, e.metadata, Heuristic)
  }

  /** Emitting the first subject a producer is heard on keeps the loop's state. */
  lemma HearOne(f: Facts, key: string, hub: Id, direct: Log, r: Log, heard: set<Id>, s: string, p: Id)
    requires Hearing(f, key, hub, direct, r, heard)
    requires (p, hub, Produces) !in r.seen && LeastSubject(f, key, s, p) && s in f.producers
    requires forall q :: q in Heard(f, key) && Earlier(f, key, q, p) ==> q in heard
    ensures Hearing(f, key, hub, direct, r.Emit(Edge(p, hub, Produces, s, Heuristic)), heard + {p})
    ensures p !in heard
  {
    hide Earlier;
    var e0 := Edge(p, hub, Produces, s, Heuristic);
    var r' := r.Emit(e0);
    assert p in Heard(f, key);
    NotEarlierThanItself(f, key, p);
    forall e: Edge | e.from == p && HeardEdge(f, key, hub, e) ensures e == e0 {
      LessTotal(e.metadata, s);
    }
    assert HeardEdge(f, key, hub, e0);
  }

  lemma {:induction false} SubsetSize<T>(a: set<T>, b: set<T>)
    requires a <= b
    ensures |a| <= |b|
  {
    if a != {} {
      var x :| x in a;
      SubsetSize(a - {x}, b - {x});
    }
  }

  /** Links the producers of every concrete subject the pattern matches, up to the cap: exactly the kept ones. */
  method LinkWildcard(f: Facts, key: string, hub: Id, subjects: seq<string>, direct: Log) returns (r: Log)
    requires StrictlySorted(subjects) && forall k :: k in subjects <==> k in f.producers && !IsPattern(k)
    requires Hearing(f, key, hub, direct, direct, {})
    ensures Hearing(f, key, hub, direct, r, Kept(f, key))
  {
    hide HeardOn, Heard, Hearing, LeastSubject, HeardBefore, IsPattern, Subjects.Matches, Earlier, Initial, Kept;
    r := direct;
    ghost var heard: set<Id> := {};
    NothingHeard(f, key, hub, subjects, direct);
    var linked := 0;
    var consumers := At(f.consumers, key);
    var i := 0;
    while i < |subjects|
      invariant 0 <= i <= |subjects|
      invariant Hearing(f, key, hub, direct, r, heard)
      invariant |heard| == linked <= MAX_WILDCARD_PRODUCERS
      invariant HeardBefore(f, key, hub, subjects, i, r)
    {
      var s := subjects[i];
      assert s in subjects;
      var matched := SubjectMatches(key, s);
      if matched {
        var prods := f.producers[s];
        var j := 0;
        while j < |prods|
          invariant 0 <= j <= |prods|
          invariant Hearing(f, key, hub, direct, r, heard)
          invariant |heard| == linked <= MAX_WILDCARD_PRODUCERS
          invariant HeardBefore(f, key, hub, subjects, i, r)
          invariant forall m :: 0 <= m < j && prods[m] !in consumers ==> (prods[m], hub, Produces) in r.seen
        {
          var p := prods[j];
          if p !in consumers {
            if linked >= MAX_WILDCARD_PRODUCERS {
              Full(f, key, hub, direct, r, heard);
              return;
            }
            if (p, hub, Produces) !in r.seen {
              linked := linked + 1;
              FirstHeard(f, key, hub, subjects, i, r, p);
              NextInOrder(f, key, hub, subjects, i, j, direct, r, heard);
              HearOne(f, key, hub, direct, r, heard, s, p);
              heard := heard + {p};
            }
            StillHeard(f, key, hub, subjects, i, r, r.Emit(Edge(p, hub, Produces, s, Heuristic)));
            r := r.Emit(Edge(p, hub, Produces, s, Heuristic));
          }
          j := j + 1;
        }
      }
      HeardOneMore(f, key, hub, subjects, i, r);
      i := i + 1;
    }
    EverythingHeard(f, key, hub, subjects, direct, r, heard);
  }

  /** Everything earlier than the place the loop stands at has been linked. */
  lemma NextInOrder(f: Facts, key: string, hub: Id, subjects: seq<string>, i: nat, j: nat, direct: Log, r: Log,
        heard: set<Id>)
    requires StrictlySorted(subjects) && (forall k :: k in subjects <==> k in f.producers && !IsPattern(k))
    requires i < |subjects|
    requires Hearing(f, key, hub, direct, r, heard) && HeardBefore(f, key, hub, subjects, i, r)
    requires subjects[i] in f.producers && j < |f.producers[subjects[i]]|
    requires
      var prods := f.producers[subjects[i]];
      && Subjects.Matches(key, subjects[i]) && prods[j] !in At(f.consumers, key)
      && forall m :: 0 <= m < j && prods[m] !in At(f.consumers, key) ==> (prods[m], hub, Produces) in r.seen
    ensures forall q :: q in Heard(f, key) && Earlier(f, key, q, f.producers[subjects[i]][j]) ==> q in heard
  {
    hide IsPattern, Subjects.Matches;
    var s, p := subjects[i], f.producers[subjects[i]][j];
    assert s in subjects;
    assert HeardAt(f, key, s, j, p);
    forall q | q in Heard(f, key) && Earlier(f, key, q, p) ensures q in heard {
      var t, n: nat :| HeardAt(f, key, t, n, q) && PlacedFirst(f, key, t, n, p);
      assert PlaceBefore(t, n, s, j);
      assert t in subjects;
      var m :| 0 <= m < |subjects| && subjects[m] == t;
      if t != s {
        SortedIndex(subjects, m, i);
        assert HeardOn(f, key, subjects[m], q);
      } else {
        LessTotal(s, s);
        assert n < j && f.producers[s][n] == q && q !in At(f.consumers, key);
      }
      assert (q, hub, Produces) in r.seen;
    }
  }

  lemma SortedIndex(keys: seq<string>, m: nat, i: nat)
    requires StrictlySorted(keys) && m < |keys| && i < |keys| && Less(keys[m], keys[i])
    ensures m < i
  {
    LessTotal(keys[m], keys[i]);
  }

  /** Every producer heard on one of the first `i` subjects is linked. */
  ghost predicate HeardBefore(f: Facts, key: string, hub: Id, subjects: seq<string>, i: nat, r: Log)
    requires i <= |subjects|
  {
    forall m, p: Id :: 0 <= m < i && HeardOn(f, key, subjects[m], p) ==> (p, hub, Produces) in r.seen
  }

  lemma NothingHeard(f: Facts, key: string, hub: Id, subjects: seq<string>, r: Log)
    ensures HeardBefore(f, key, hub, subjects, 0, r)
  {
  }

  lemma StillHeard(f: Facts, key: string, hub: Id, subjects: seq<string>, i: nat, r: Log, r': Log)
    requires i <= |subjects| && HeardBefore(f, key, hub, subjects, i, r) && r.seen <= r'.seen
    ensures HeardBefore(f, key, hub, subjects, i, r')
  {
  }

  lemma FirstHeard(f: Facts, key: string, hub: Id, subjects: seq<string>, i: nat, r: Log, p: Id)
    requires StrictlySorted(subjects) && forall k :: k in subjects <==> k in f.producers && !IsPattern(k)
    requires i < |subjects| && HeardBefore(f, key, hub, subjects, i, r) && (p, hub, Produces) !in r.seen
    requires Subjects.Matches(key, subjects[i]) && p in f.producers[subjects[i]] && p !in At(f.consumers, key)
    ensures LeastSubject(f, key, subjects[i], p)
  {
    assert subjects[i] in subjects;
    forall s | HeardOn(f, key, s, p) ensures s == subjects[i] || Less(subjects[i], s) {
      assert s in subjects;
      var m :| 0 <= m < |subjects| && subjects[m] == s;
      assert m >= i;
    }
  }

  lemma HeardOneMore(f: Facts, key: string, hub: Id, subjects: seq<string>, i: nat, r: Log)
    requires i < |subjects| && subjects[i] in f.producers && HeardBefore(f, key, hub, subjects, i, r)
    requires Subjects.Matches(key, subjects[i]) ==>
               forall m :: 0 <= m < |f.producers[subjects[i]]| && f.producers[subjects[i]][m] !in At(f.consumers, key)
                 ==> (f.producers[subjects[i]][m], hub, Produces) in r.seen
    ensures HeardBefore(f, key, hub, subjects, i + 1, r)
  {
  }

  lemma Full(f: Facts, key: string, hub: Id, direct: Log, r: Log, heard: set<Id>)
    requires Hearing(f, key, hub, direct, r, heard) && |heard| == MAX_WILDCARD_PRODUCERS
    ensures heard == Kept(f, key)
  {
    hide Heard, Initial, Kept;
    InitialIsKept(f, key, heard);
  }

  lemma HeardConcretely(f: Facts, key: string, s: string, p: Id)
    requires HeardOn(f, key, s, p)
    ensures !IsPattern(s) && s in f.producers
  {
  }

  lemma EverythingHeard(f: Facts, key: string, hub: Id, subjects: seq<string>, direct: Log, r: Log, heard: set<Id>)
    requires forall k :: k in subjects <==> k in f.producers && !IsPattern(k)
    requires Hearing(f, key, hub, direct, r, heard) && HeardBefore(f, key, hub, subjects, |subjects|, r)
    requires |heard| <= MAX_WILDCARD_PRODUCERS
    ensures heard == Kept(f, key)
  {
    forall p | p in Heard(f, key) ensures p in heard {
      var s :| s in f.producers && HeardOn(f, key, s, p) && p !in At(f.producers, key);
      assert HeardOn(f, key, s, p);
      HeardConcretely(f, key, s, p);
      assert s in subjects;
    }
    hide Heard, Initial, Kept;
    InitialIsKept(f, key, heard);
  }

  /** The cap does not cut the subscription short. */
  predicate NotTruncated(nodes: Table, f: Facts, key: string) {
    Wildcard(nodes, f, key) ==> |Heard(f, key)| <= MAX_WILDCARD_PRODUCERS
  }

  /** All edges of one hub: exactly the topic edges are emitted. */
  method LinkTopic(nodes: Table, f: Facts, key: string, hub: Id, subjects: seq<string>, log: Log) returns (r: Log)
    requires log.Ok() && Untouched(log, hub)
    requires StrictlySorted(subjects) && forall k :: k in subjects <==> k in f.producers && !IsPattern(k)
    ensures r.Ok() && log.edges <= r.edges && OnlyHub(log, r, hub)
    ensures forall e :: e in r.edges <==> e in log.edges || TopicEdge(nodes, f, key, hub, e)
  {
    hide IsPattern, Subjects.Matches, HeardOn, Heard, LeastSubject, SubjectConsumer, Kept, DirectEdge;
    r := LinkDirect(f, key, hub, log);
    var pattern := IsSubjectPattern(key);
    if pattern && SubjectConsumer(nodes, At(f.consumers, key)) {
      NoneHeardYet(f, key, hub, r);
      r := LinkWildcard(f, key, hub, subjects, r);
    }
  }

  lemma NoneHeardYet(f: Facts, key: string, hub: Id, direct: Log)
    requires direct.Ok() && forall p :: (p, hub, Produces) in direct.seen <==> p in At(f.producers, key)
    ensures Hearing(f, key, hub, direct, direct, {})
  {
    hide Heard;
  }
}
