/** Folding files into the graph, and what it means for a graph to hold exactly a workspace's facts. */
module Workspace {
  import opened Seqs
  import opened GraphModel
  import opened Records
  import opened Graph

  type Local = (nat, string)

  /** Everything extracted from one file, against local node indices. */
  datatype FileIndex = FileIndex(
    nodes: seq<Node>, dependencies: seq<Local>, producers: seq<Local>, consumers: seq<Local>,
    calls: seq<Local>, heuristic: seq<nat>)
  {
    /** Facts name nodes of the file; nodes carry its path and stay out of the hubs' package and repository. */
    ghost predicate Ok(path: string) {
      && (forall k :: 0 <= k < |nodes| ==> nodes[k].file == path && nodes[k].package != BUS && nodes[k].repo != NO_REPO)
      && (forall i :: 0 <= i < |dependencies| ==> dependencies[i].0 < |nodes|)
      && (forall i :: 0 <= i < |producers| ==> producers[i].0 < |nodes|)
      && (forall i :: 0 <= i < |consumers| ==> consumers[i].0 < |nodes|)
      && (forall i :: 0 <= i < |calls| ==> calls[i].0 < |nodes|)
      && (forall i :: 0 <= i < |heuristic| ==> heuristic[i] < |nodes|)
    }
  }

  type Files = map<string, FileIndex>

  ghost predicate FilesOk(w: Files) {
    forall path :: path in w ==> w[path].Ok(path)
  }

  // ------------------------------------------------------------------ what folding one file adds

  const NO_FACTS := Facts(map[], map[], map[], [], {})

  /** The table with the nodes appended from id `base` on. */
  function Block(nodes: Table, base: Id, ns: seq<Node>): (r: Table)
    ensures forall id :: id in r <==> id in nodes || base <= id < base + |ns|
    ensures forall id :: id in r ==> r[id] == if base <= id < base + |ns| then ns[id - base] else nodes[id]
  {
    if ns == [] then nodes else Block(nodes, base, ns[..|ns| - 1])[base + |ns| - 1 := ns[|ns| - 1]]
  }

  function PushAll(index: Buckets, base: Id, facts: seq<Local>): Buckets {
    if facts == [] then index
    else
      var last := facts[|facts| - 1];
      Push(PushAll(index, base, facts[..|facts| - 1]), last.1, base + last.0)
  }

  function Shift(base: Id, calls: seq<Local>): (r: seq<Call>)
    ensures |r| == |calls|
    ensures forall i :: 0 <= i < |r| ==> r[i] == (base + calls[i].0, calls[i].1)
  {
    if calls == [] then []
    else Shift(base, calls[..|calls| - 1]) + [(base + calls[|calls| - 1].0, calls[|calls| - 1].1)]
  }

  /** Topic names as registry keys. */
  function Topics(lib: Lib, facts: seq<Local>): (r: seq<Local>)
    ensures |r| == |facts|
    ensures forall i :: 0 <= i < |r| ==> r[i] == (facts[i].0, lib.topicKey(facts[i].1))
  {
    if facts == [] then []
    else Topics(lib, facts[..|facts| - 1]) + [(facts[|facts| - 1].0, lib.topicKey(facts[|facts| - 1].1))]
  }

  function Added(lib: Lib, f: Facts, base: Id, fi: FileIndex): Facts {
    Facts(
      PushAll(f.imports, base, fi.dependencies),
      PushAll(f.producers, base, Topics(lib, fi.producers)),
      PushAll(f.consumers, base, Topics(lib, fi.consumers)),
      f.calls + Shift(base, fi.calls),
      f.heuristic + set i | 0 <= i < |fi.heuristic| :: base + fi.heuristic[i])
  }

  // ------------------------------------------------------------------ counting

  lemma {:induction false} PushAllCount(index: Buckets, base: Id, facts: seq<Local>, t: string, id: Id)
    ensures Tally(At(PushAll(index, base, facts), t), id)
         == Tally(At(index, t), id) + if id >= base then Tally(facts, (id - base, t)) else 0
  {
    if facts != [] {
      PushAllCount(index, base, facts[..|facts| - 1], t, id);
      PushAllStep(index, base, facts, t, id);
    }
  }

  lemma PushAllStep(index: Buckets, base: Id, facts: seq<Local>, t: string, id: Id)
    requires facts != []
    ensures
      var init, last := facts[..|facts| - 1], facts[|facts| - 1];
      Tally(At(PushAll(index, base, facts), t), id)
      == Tally(At(PushAll(index, base, init), t), id) + if (id - base, t) == last then 1 else 0
  {
    hide Push, At, Tally;
    var init, last := facts[..|facts| - 1], facts[|facts| - 1];
    PushCount(PushAll(index, base, init), last.1, base + last.0, t, id);
  }

  lemma PushCount(index: Buckets, key: string, new_: Id, t: string, id: Id)
    ensures Tally(At(Push(index, key, new_), t), id)
         == Tally(At(index, t), id) + if t == key && id == new_ then 1 else 0
  {
    var ids := At(index, t);
    if t == key {
      assert At(Push(index, key, new_), t) == ids + [new_];
      assert (ids + [new_])[..|ids|] == ids;
    } else {
      assert At(Push(index, key, new_), t) == ids;
    }
  }

  lemma {:induction false} CallsOfShift(calls: seq<Call>, base: Id, local: seq<Local>, id: Id)
    requires forall i :: 0 <= i < |calls| ==> calls[i].0 < base
    ensures CallsOf(calls + Shift(base, local), id)
         == if id >= base then CallsOf(local, id - base) else CallsOf(calls, id)
  {
    var all := calls + Shift(base, local);
    if local == [] {
      assert all == calls;
      if id >= base {
        NoCalls(calls, id);
      }
    } else {
      var init := local[..|local| - 1];
      CallsOfShift(calls, base, init, id);
      assert Shift(base, local) == Shift(base, init) + [(base + local[|local| - 1].0, local[|local| - 1].1)];
      assert all[..|all| - 1] == calls + Shift(base, init);
    }
  }

  lemma {:induction false} NoCalls(calls: seq<Call>, id: Id)
    requires forall i :: 0 <= i < |calls| ==> calls[i].0 != id
    ensures CallsOf(calls, id) == []
  {
    if calls != [] {
      NoCalls(calls[..|calls| - 1], id);
    }
  }

  lemma {:induction false} CallsOfRetain(calls: seq<Call>, stale: set<Id>, id: Id)
    requires id !in stale
    ensures CallsOf(RetainCalls(calls, stale), id) == CallsOf(calls, id)
  {
    if calls != [] {
      CallsOfRetain(calls[..|calls| - 1], stale, id);
      var last, rest := calls[|calls| - 1], RetainCalls(calls[..|calls| - 1], stale);
      assert (rest + [last])[..|rest|] == rest;
    }
  }

  // ------------------------------------------------------------------ representation

  /** The nodes and facts are the workspace's, file by file; `origin` says where each node came from. */
  ghost predicate Represents(lib: Lib, w: Files, origin: map<Id, (string, nat)>, src: Table, f: Facts) {
    && Placed(w, origin, src)
    && (forall id :: id in origin ==> FactsOf(lib, w[origin[id].0], origin[id].1, f, id))
    && FactsLive(f, src)
  }

  /** Each node of the table is one place of the workspace, and each place has its node. */
  ghost predicate Placed(w: Files, origin: map<Id, (string, nat)>, src: Table) {
    && origin.Keys == src.Keys
    && (forall id :: id in origin ==> HandleOk(w, origin[id]) && src[id] == w[origin[id].0].nodes[origin[id].1])
    && (forall i, j :: i in origin && j in origin && origin[i] == origin[j] ==> i == j)
    && (forall h :: HandleOk(w, h) ==> h in origin.Values)
  }

  ghost predicate HandleOk(w: Files, h: (string, nat)) {
    h.0 in w && h.1 < |w[h.0].nodes|
  }

  /** The facts recorded about node `id` are those of local node `k` of its file, each as often. */
  ghost predicate FactsOf(lib: Lib, fi: FileIndex, k: nat, f: Facts, id: Id) {
    && (forall t :: Tally(At(f.imports, t), id) == Tally(fi.dependencies, (k, t)))
    && (forall t :: Tally(At(f.producers, t), id) == Tally(Topics(lib, fi.producers), (k, t)))
    && (forall t :: Tally(At(f.consumers, t), id) == Tally(Topics(lib, fi.consumers), (k, t)))
    && CallsOf(f.calls, id) == CallsOf(fi.calls, k)
    && (id in f.heuristic <==> k in fi.heuristic)
  }

  ghost predicate Represented(lib: Lib, w: Files, src: Table, f: Facts) {
    exists origin :: Represents(lib, w, origin, src, f)
  }

  lemma EmptyRepresented(lib: Lib)
    ensures Represented(lib, map[], map[], NO_FACTS)
  {
    assert Represents(lib, map[], map[], map[], NO_FACTS);
  }

  // ------------------------------------------------------------------ folding

  lemma {:induction false} PushAllLive(index: Buckets, base: Id, facts: seq<Local>, n: nat, src: Table, src': Table)
    requires forall t, id :: id in At(index, t) ==> id in src
    requires forall id :: id in src ==> id in src'
    requires forall i :: 0 <= i < |facts| ==> facts[i].0 < n
    requires forall id :: base <= id < base + n ==> id in src'
    ensures forall t, id :: id in At(PushAll(index, base, facts), t) ==> id in src'
    ensures NoEmptyBucket(index) ==> NoEmptyBucket(PushAll(index, base, facts))
  {
    if facts != [] {
      var last := facts[|facts| - 1];
      PushAllLive(index, base, facts[..|facts| - 1], n, src, src');
      PushLive(PushAll(index, base, facts[..|facts| - 1]), last.1, base + last.0, src');
    }
  }

  lemma PushLive(index: Buckets, key: string, id: Id, src: Table)
    requires (forall t, x :: x in At(index, t) ==> x in src) && id in src
    ensures forall t, x :: x in At(Push(index, key, id), t) ==> x in src
  {
    forall t, x | x in At(Push(index, key, id), t) ensures x in src {
      assert x in At(index, t) || x == id;
    }
  }

  lemma AddedLive(lib: Lib, f: Facts, base: Id, path: string, fi: FileIndex, src: Table)
    requires FactsLive(f, src) && fi.Ok(path)
    ensures FactsLive(Added(lib, f, base, fi), Block(src, base, fi.nodes))
    ensures NoEmptyFacts(f) ==> NoEmptyFacts(Added(lib, f, base, fi))
  {
    hide PushAll, Block, Shift, NoEmptyBucket;
    var src' := Block(src, base, fi.nodes);
    PushAllLive(f.imports, base, fi.dependencies, |fi.nodes|, src, src');
    PushAllLive(f.producers, base, Topics(lib, fi.producers), |fi.nodes|, src, src');
    PushAllLive(f.consumers, base, Topics(lib, fi.consumers), |fi.nodes|, src, src');
  }

  lemma OldFacts(lib: Lib, f: Facts, base: Id, path: string, fi: FileIndex, other: FileIndex, k: nat, id: Id)
    requires fi.Ok(path) && id < base && FactsOf(lib, other, k, f, id)
    requires forall i :: 0 <= i < |f.calls| ==> f.calls[i].0 < base
    ensures FactsOf(lib, other, k, Added(lib, f, base, fi), id)
  {
    hide PushAll;
    forall t { PushAllCount(f.imports, base, fi.dependencies, t, id); }
    forall t { PushAllCount(f.producers, base, Topics(lib, fi.producers), t, id); }
    forall t { PushAllCount(f.consumers, base, Topics(lib, fi.consumers), t, id); }
    CallsOfShift(f.calls, base, fi.calls, id);
  }

  /** A node that did not exist had no facts. */
  lemma NoOldFacts(f: Facts, src: Table, id: Id)
    requires FactsLive(f, src) && id !in src
    ensures forall t ::
      Tally(At(f.imports, t), id) == 0 && Tally(At(f.producers, t), id) == 0 && Tally(At(f.consumers, t), id) == 0
    ensures id !in f.heuristic
  {
    forall t
      ensures Tally(At(f.imports, t), id) == 0 && Tally(At(f.producers, t), id) == 0
      ensures Tally(At(f.consumers, t), id) == 0 {
      TallyMember(At(f.imports, t), id);
      TallyMember(At(f.producers, t), id);
      TallyMember(At(f.consumers, t), id);
    }
  }

  lemma NewFacts(lib: Lib, f: Facts, base: Id, fi: FileIndex, k: nat, id: Id, src: Table)
    requires FactsLive(f, src) && Below(src, base) && id == base + k
    ensures FactsOf(lib, fi, k, Added(lib, f, base, fi), id)
  {
    hide PushAll, FactsLive, Topics, Tally, At, CallsOf, Shift, Push;
    assert id !in src;
    NoOldFacts(f, src, id);
    CallsBelow(f, src, base);
    NewBucketFacts(f.imports, base, fi.dependencies, k, id);
    NewBucketFacts(f.producers, base, Topics(lib, fi.producers), k, id);
    NewBucketFacts(f.consumers, base, Topics(lib, fi.consumers), k, id);
    CallsOfShift(f.calls, base, fi.calls, id);
    NewHeuristic(f.heuristic, base, fi.heuristic, k);
  }

  lemma NewBucketFacts(index: Buckets, base: Id, facts: seq<Local>, k: nat, id: Id)
    requires id == base + k && forall t :: Tally(At(index, t), id) == 0
    ensures forall t :: Tally(At(PushAll(index, base, facts), t), id) == Tally(facts, (k, t))
  {
    hide PushAll, Tally, At;
    forall t ensures Tally(At(PushAll(index, base, facts), t), id) == Tally(facts, (k, t)) {
      PushAllCount(index, base, facts, t, id);
    }
  }

  lemma CallsBelow(f: Facts, src: Table, base: Id)
    requires FactsLive(f, src) && Below(src, base)
    ensures forall i :: 0 <= i < |f.calls| ==> f.calls[i].0 < base
  {
  }

  lemma NewHeuristic(old_: set<Id>, base: Id, local: seq<nat>, k: nat)
    requires base + k !in old_
    ensures base + k in old_ + (set i | 0 <= i < |local| :: base + local[i]) <==> k in local
  {
    if k in local {
      var i :| 0 <= i < |local| && local[i] == k;
      assert base + local[i] == base + k;
    }
  }

  /** Where the appended nodes came from. */
  ghost function Origins(origin: map<Id, (string, nat)>, base: Id, path: string, n: nat): (r: map<Id, (string, nat)>)
    ensures forall id :: id in r <==> id in origin || base <= id < base + n
    ensures forall id :: id in r ==> r[id] == if base <= id < base + n then (path, id - base) else origin[id]
  {
    if n == 0 then origin else Origins(origin, base, path, n - 1)[base + n - 1 := (path, n - 1)]
  }

  /** Every place of the extended workspace has its node. */
  lemma OriginsOnto(w: Files, origin: map<Id, (string, nat)>, base: Id, path: string, fi: FileIndex, h: (string, nat))
    requires forall x :: HandleOk(w, x) ==> x in origin.Values
    requires forall id :: id in origin ==> id < base
    requires HandleOk(w[path := fi], h) && path !in w
    ensures h in Origins(origin, base, path, |fi.nodes|).Values
  {
    hide Origins;
    var origin' := Origins(origin, base, path, |fi.nodes|);
    if h.0 == path {
      assert base + h.1 in origin' && origin'[base + h.1] == h;
    } else {
      assert HandleOk(w, h);
      var id :| id in origin && origin[id] == h;
      assert id in origin' && origin'[id] == h;
    }
  }

  /** Folding a new file extends the represented workspace by it. */
  lemma RepresentsAdd(lib: Lib, w: Files, src: Table, f: Facts, base: Id, path: string, fi: FileIndex)
    requires Represented(lib, w, src, f) && Below(src, base) && path !in w && fi.Ok(path)
    ensures Represented(lib, w[path := fi], Block(src, base, fi.nodes), Added(lib, f, base, fi))
  {
    hide FactsOf, Added, FactsLive, Block, Origins, Placed;
    var origin: map<Id, (string, nat)> :| Represents(lib, w, origin, src, f);
    var w', f' := w[path := fi], Added(lib, f, base, fi);
    var origin' := Origins(origin, base, path, |fi.nodes|);
    AddedLive(lib, f, base, path, fi, src);
    CallsBelow(f, src, base);
    PlacedAdd(w, origin, src, base, path, fi);
    forall id | id in origin' ensures FactsOf(lib, w'[origin'[id].0], origin'[id].1, f', id) {
      if id >= base {
        NewFacts(lib, f, base, fi, id - base, id, src);
      } else {
        OldFacts(lib, f, base, path, fi, w[origin[id].0], origin[id].1, id);
      }
    }
    assert Represents(lib, w', origin', Block(src, base, fi.nodes), f');
  }

  lemma PlacedAdd(w: Files, origin: map<Id, (string, nat)>, src: Table, base: Id, path: string, fi: FileIndex)
    requires Placed(w, origin, src) && Below(src, base) && path !in w
    ensures Placed(w[path := fi], Origins(origin, base, path, |fi.nodes|), Block(src, base, fi.nodes))
    ensures forall id :: id in Origins(origin, base, path, |fi.nodes|) ==>
      if id >= base then Origins(origin, base, path, |fi.nodes|)[id] == (path, id - base)
      else
        id in origin && Origins(origin, base, path, |fi.nodes|)[id] == origin[id]
        && origin[id].0 in w && origin[id].0 != path
  {
    hide Block, Origins;
    var w', src', origin' := w[path := fi], Block(src, base, fi.nodes), Origins(origin, base, path, |fi.nodes|);
    PlaceOrigin(w, origin, src, base, path, fi);
    hide Placed, HandleOk;
    assert origin'.Keys == src'.Keys;
    forall i, j | i in origin' && j in origin' && origin'[i] == origin'[j] ensures i == j {
      PlaceDistinct(w, origin, src, base, path, fi, i, j);
    }
    forall h | HandleOk(w', h) ensures h in origin'.Values {
      PlaceOnto(w, origin, src, base, path, fi, h);
    }
    PlacedIntro(w', origin', src');
  }

  lemma PlacedIntro(w: Files, origin: map<Id, (string, nat)>, src: Table)
    requires origin.Keys == src.Keys
    requires forall id :: id in origin ==> HandleOk(w, origin[id]) && src[id] == w[origin[id].0].nodes[origin[id].1]
    requires forall i, j :: i in origin && j in origin && origin[i] == origin[j] ==> i == j
    requires forall h :: HandleOk(w, h) ==> h in origin.Values
    ensures Placed(w, origin, src)
  {
  }

  lemma PlaceOrigin(w: Files, origin: map<Id, (string, nat)>, src: Table, base: Id, path: string, fi: FileIndex)
    requires Placed(w, origin, src) && Below(src, base) && path !in w
    ensures
      var w', src', origin' := w[path := fi], Block(src, base, fi.nodes), Origins(origin, base, path, |fi.nodes|);
      forall id :: id in origin' ==>
        && id in src' && HandleOk(w', origin'[id]) && src'[id] == w'[origin'[id].0].nodes[origin'[id].1]
        && if id >= base then origin'[id] == (path, id - base)
             else id in origin && origin'[id] == origin[id] && origin[id].0 in w && origin[id].0 != path
  {
    hide Block, Origins;
    var w', src', origin' := w[path := fi], Block(src, base, fi.nodes), Origins(origin, base, path, |fi.nodes|);
    forall id | id in origin'
      ensures id in src' && HandleOk(w', origin'[id]) && src'[id] == w'[origin'[id].0].nodes[origin'[id].1]
      ensures if id >= base then origin'[id] == (path, id - base)
        else id in origin && origin'[id] == origin[id] && origin[id].0 in w && origin[id].0 != path
    {
      if id < base {
        assert id in origin && HandleOk(w, origin[id]);
      } else {
        assert id !in origin;
      }
    }
  }

  lemma PlaceDistinct(w: Files, origin: map<Id, (string, nat)>, src: Table, base: Id, path: string, fi: FileIndex,
        i: Id, j: Id)
    requires Placed(w, origin, src) && Below(src, base) && path !in w
    requires
      var origin' := Origins(origin, base, path, |fi.nodes|);
      i in origin' && j in origin' && origin'[i] == origin'[j]
    ensures i == j
  {
    hide Origins;
    PlaceOrigin(w, origin, src, base, path, fi);
  }

  lemma PlaceOnto(w: Files, origin: map<Id, (string, nat)>, src: Table, base: Id, path: string, fi: FileIndex,
        h: (string, nat))
    requires Placed(w, origin, src) && Below(src, base) && path !in w && HandleOk(w[path := fi], h)
    ensures h in Origins(origin, base, path, |fi.nodes|).Values
  {
    OriginsOnto(w, origin, base, path, fi, h);
  }

  // ------------------------------------------------------------------ purging

  lemma RetainedFacts(lib: Lib, f: Facts, stale: set<Id>, fi: FileIndex, k: nat, id: Id)
    requires id !in stale && FactsOf(lib, fi, k, f, id)
    ensures FactsOf(lib, fi, k, RetainFacts(f, stale), id)
  {
    forall t { TallyRetain(At(f.imports, t), stale, id); }
    forall t { TallyRetain(At(f.producers, t), stale, id); }
    forall t { TallyRetain(At(f.consumers, t), stale, id); }
    CallsOfRetain(f.calls, stale, id);
  }

  lemma RetainedBuckets(b: Buckets, stale: set<Id>, src: Table)
    requires forall t, id :: id in At(b, t) ==> id in src
    ensures forall t, id :: id in At(RetainBuckets(b, stale), t) ==> id in src - stale
  {
    forall t, id | id in At(RetainBuckets(b, stale), t) ensures id in src - stale {
      RetainMember(At(b, t), stale, id);
    }
  }

  lemma RetainedLive(f: Facts, stale: set<Id>, src: Table)
    requires FactsLive(f, src)
    ensures FactsLive(RetainFacts(f, stale), src - stale)
  {
    RetainedBuckets(f.imports, stale, src);
    RetainedBuckets(f.producers, stale, src);
    RetainedBuckets(f.consumers, stale, src);
    forall i | 0 <= i < |RetainCalls(f.calls, stale)| ensures RetainCalls(f.calls, stale)[i].0 in src - stale {
      assert RetainCalls(f.calls, stale)[i] in f.calls;
    }
  }

  /** Purging files removes exactly their part of the represented workspace. */
  lemma RepresentsPurge(lib: Lib, w: Files, src: Table, f: Facts, files: set<string>, stale: set<Id>)
    requires Represented(lib, w, src, f) && FilesOk(w)
    requires forall id :: id in src ==> (id in stale <==> src[id].file in files)
    ensures Represented(lib, w - files, src - stale, RetainFacts(f, stale))
  {
    hide FactsOf, RetainFacts, FactsLive, Placed;
    var origin: map<Id, (string, nat)> :| Represents(lib, w, origin, src, f);
    var w', f' := w - files, RetainFacts(f, stale);
    var origin' := origin - stale;
    RetainedLive(f, stale, src);
    PlacedPurge(w, origin, src, files, stale);
    forall id | id in origin' ensures FactsOf(lib, w'[origin'[id].0], origin'[id].1, f', id) {
      RetainedFacts(lib, f, stale, w[origin[id].0], origin[id].1, id);
    }
    assert Represents(lib, w', origin', src - stale, f');
  }

  lemma PlacedPurge(w: Files, origin: map<Id, (string, nat)>, src: Table, files: set<string>, stale: set<Id>)
    requires Placed(w, origin, src) && FilesOk(w)
    requires forall id :: id in src ==> (id in stale <==> src[id].file in files)
    ensures Placed(w - files, origin - stale, src - stale)
    ensures forall id :: id in origin - stale ==> origin[id].0 in w - files
  {
    var w', origin' := w - files, origin - stale;
    forall id | id in origin ensures id in stale <==> origin[id].0 in files {
      assert w[origin[id].0].Ok(origin[id].0);
    }
    forall h | HandleOk(w', h) ensures h in origin'.Values {
      assert HandleOk(w, h);
      var id :| id in origin && origin[id] == h;
      assert id in origin' && origin'[id] == h;
    }
  }
}
