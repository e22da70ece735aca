/** The parse cache: keys, reads and writes by several processes, and least-recently-used eviction under a quota. */
module IndexCache {
  import opened Text

  type Byte = x: int | 0 <= x < 256
  type Bytes = seq<Byte>
  type Sha = Bytes -> Bytes

  const SCHEMA_VERSION: Byte := 11
  const EVICTION_BATCH: nat := 1000
  const TARGET_PERCENT: nat := 80

  // ------------------------------------------------------------------ keys

  /** Everything one file's extraction depends on. The path is its lossy UTF-8 text. */
  datatype Inputs = Inputs(path: Bytes, contentHash: Bytes, repo: nat, config: Bytes) {
    ghost predicate Ok() {
      |contentHash| == 32 && |config| == 32 && repo < 65536
    }
  }

  function RepoBytes(repo: nat): Bytes
    requires repo < 65536
  {
    [repo % 256, repo / 256]
  }

  /** The hashed text: the parts joined without separators. */
  function KeyText(x: Inputs): Bytes
    requires x.repo < 65536
  {
    [SCHEMA_VERSION] + x.path + x.contentHash + RepoBytes(x.repo) + x.config
  }

  function KeyFor(sha: Sha, x: Inputs): Bytes
    requires x.repo < 65536
  {
    sha(KeyText(x))
  }

  /** Only the path has no fixed width, so the joined text still determines every part. */
  lemma KeyTextDetermines(x: Inputs, y: Inputs)
    requires x.Ok() && y.Ok() && KeyText(x) == KeyText(y)
    ensures x == y
  {
    var t, n := KeyText(x), |KeyText(x)|;
    assert x.config == t[n - 32..] && y.config == t[n - 32..];
    assert RepoBytes(x.repo) == t[n - 34..n - 32] && RepoBytes(y.repo) == t[n - 34..n - 32];
    assert RepoBytes(x.repo)[0] == RepoBytes(y.repo)[0] && RepoBytes(x.repo)[1] == RepoBytes(y.repo)[1];
    assert x.contentHash == t[n - 66..n - 34] && y.contentHash == t[n - 66..n - 34];
    assert x.path == t[1..n - 66] && y.path == t[1..n - 66];
  }

  // ------------------------------------------------------------------ the two tables

  datatype Payload = Payload(data: Bytes, rowid: nat)
  datatype Access = Access(at: nat, rowid: nat)

  /** The payload table, the access table and the next row id. */
  datatype Store = Store(payloads: map<Bytes, Payload>, access: map<Bytes, Access>, next: nat)

  /** Every payload has its access row and every access row its payload; row ids are distinct. */
  ghost predicate Ok(s: Store) {
    && s.payloads.Keys == s.access.Keys
    && (forall k :: k in s.access ==> s.access[k].rowid == s.payloads[k].rowid && s.access[k].rowid < s.next)
    && (forall i, j :: i in s.access && j in s.access && s.access[i].rowid == s.access[j].rowid ==> i == j)
  }

  /** Least recently used first; ties in storage order. */
  predicate Older(a: Access, b: Access) {
    a.at < b.at || (a.at == b.at && a.rowid < b.rowid)
  }

  type Entry = (Bytes, Bytes)

  /** `INSERT OR REPLACE` of a payload, and its access row. */
  function Write(s: Store, e: Entry, now: nat): Store {
    Store(s.payloads[e.0 := Payload(e.1, s.next)], s.access[e.0 := Access(now, s.next)], s.next + 1)
  }

  /** `UPDATE`, not upsert: an evicted key does not come back. */
  function Touch(s: Store, key: Bytes, now: nat): Store {
    if key in s.access then s.(access := s.access[key := s.access[key].(at := now)]) else s
  }

  function WriteAll(s: Store, entries: seq<Entry>, now: nat): Store {
    if entries == [] then s else Write(WriteAll(s, entries[..|entries| - 1], now), entries[|entries| - 1], now)
  }

  function TouchAll(s: Store, keys: seq<Bytes>, now: nat): Store {
    if keys == [] then s else Touch(TouchAll(s, keys[..|keys| - 1], now), keys[|keys| - 1], now)
  }

  /** One committed batch. */
  function Put(s: Store, entries: seq<Entry>, touched: seq<Bytes>, now: nat): Store {
    TouchAll(WriteAll(s, entries, now), touched, now)
  }

  function Delete(s: Store, keys: set<Bytes>): Store {
    s.(payloads := s.payloads - keys, access := s.access - keys)
  }

  lemma WriteOk(s: Store, e: Entry, now: nat)
    requires Ok(s)
    ensures Ok(Write(s, e, now))
  {
  }

  lemma TouchOk(s: Store, key: Bytes, now: nat)
    requires Ok(s)
    ensures Ok(Touch(s, key, now)) && Touch(s, key, now).payloads == s.payloads
  {
  }

  lemma {:induction false} WriteAllOk(s: Store, entries: seq<Entry>, now: nat)
    requires Ok(s)
    ensures Ok(WriteAll(s, entries, now))
  {
    hide Ok;
    if entries != [] {
      WriteAllOk(s, entries[..|entries| - 1], now);
      WriteOk(WriteAll(s, entries[..|entries| - 1], now), entries[|entries| - 1], now);
    }
  }

  lemma {:induction false} TouchAllOk(s: Store, keys: seq<Bytes>, now: nat)
    requires Ok(s)
    ensures Ok(TouchAll(s, keys, now)) && TouchAll(s, keys, now).payloads == s.payloads
  {
    hide Ok;
    if keys != [] {
      TouchAllOk(s, keys[..|keys| - 1], now);
      TouchOk(TouchAll(s, keys[..|keys| - 1], now), keys[|keys| - 1], now);
    }
  }

  lemma PutOk(s: Store, entries: seq<Entry>, touched: seq<Bytes>, now: nat)
    requires Ok(s)
    ensures Ok(Put(s, entries, touched, now))
  {
    hide Ok;
    WriteAllOk(s, entries, now);
    TouchAllOk(WriteAll(s, entries, now), touched, now);
  }

  lemma DeleteOk(s: Store, keys: set<Bytes>)
    requires Ok(s)
    ensures Ok(Delete(s, keys))
  {
  }

  // ------------------------------------------------------------------ choosing the oldest

  /** `keys` are the first `|keys|` entries in the order of (last access, row id). */
  ghost predicate OldestFirst(s: Store, keys: seq<Bytes>) {
    && (forall i :: 0 <= i < |keys| ==> keys[i] in s.access)
    && (forall i, j :: 0 <= i < j < |keys| ==> Older(s.access[keys[i]], s.access[keys[j]]))
    && (forall i, k :: 0 <= i < |keys| && k in s.access && k !in keys ==> Older(s.access[keys[i]], s.access[k]))
  }

  /** Keys still to be chosen from, and their least element. */
  method OldestOf(s: Store, rest: set<Bytes>) returns (k: Bytes)
    requires Ok(s) && rest != {} && rest <= s.access.Keys
    ensures k in rest && forall j :: j in rest && j != k ==> Older(s.access[k], s.access[j])
  {
    k :| k in rest;
    var todo := rest - {k};
    while todo != {}
      invariant todo <= rest - {k} && k in rest
      invariant forall j :: j in rest && j !in todo && j != k ==> Older(s.access[k], s.access[j])
    {
      var j :| j in todo;
      todo := todo - {j};
      assert s.access[j].rowid != s.access[k].rowid;
      if Older(s.access[j], s.access[k]) {
        k := j;
      }
    }
  }

  /** `ORDER BY last_accessed_at, payload_rowid LIMIT n`. */
  method Oldest(s: Store, n: nat) returns (keys: seq<Bytes>)
    requires Ok(s)
    ensures OldestFirst(s, keys) && |keys| == if n <= |s.access| then n else |s.access|
  {
    hide Ok;
    keys := [];
    var rest := s.access.Keys;
    ghost var total := |rest|;
    while |keys| < n && rest != {}
      invariant rest <= s.access.Keys && (forall k :: k in s.access ==> (k in rest <==> k !in keys))
      invariant |rest| + |keys| == total && |keys| <= n
      invariant OldestFirst(s, keys)
    {
      var k := OldestOf(s, rest);
      ghost var before := keys;
      keys := keys + [k];
      rest := rest - {k};
      OldestMore(s, before, k);
    }
  }

  lemma OldestMore(s: Store, keys: seq<Bytes>, k: Bytes)
    requires OldestFirst(s, keys) && k in s.access && k !in keys
    requires forall j :: j in s.access && j !in keys && j != k ==> Older(s.access[k], s.access[j])
    ensures OldestFirst(s, keys + [k])
  {
    hide Older;
    var more := keys + [k];
    forall i, j | 0 <= i < |more| && j in s.access && j !in more ensures Older(s.access[more[i]], s.access[j]) {
      assert j !in keys && j != k;
    }
  }

  // ------------------------------------------------------------------ processes over one database

  class Database {
    var store: Store

    constructor ()
      ensures store == Store(map[], map[], 0)
    {
      store := Store(map[], map[], 0);
    }
  }

  datatype Outcome = Outcome(evicted: nat)

  /** One process's handle: the keys it was served since its last batch, and its counters. */
  class Handle {
    const db: Database
    const maxBytes: nat
    var touched: seq<Bytes>
    var hits: nat
    var misses: nat

    constructor (db: Database, maxBytes: nat)
      ensures this.db == db && this.maxBytes == maxBytes && touched == [] && hits == 0 && misses == 0
    {
      this.db, this.maxBytes := db, maxBytes;
      touched, hits, misses := [], 0, 0;
    }

    method Get(key: Bytes) returns (data: Option<Bytes>)
      modifies this
      ensures data == if key in db.store.payloads then Some(db.store.payloads[key].data) else None
      ensures touched == if data.Some? then old(touched) + [key] else old(touched)
      ensures hits == old(hits) + (if data.Some? then 1 else 0) && misses == old(misses) + if data.Some? then 0 else 1
    {
      if key in db.store.payloads {
        hits := hits + 1;
        touched := touched + [key];
        return Some(db.store.payloads[key].data);
      }
      misses := misses + 1;
      return None;
    }

    /** Writes the batch and flushes the access times in one transaction; `ok` is false when that transaction fails. */
    method PutBatch(entries: seq<Entry>, now: nat, ok: bool)
      modifies this`touched, db
      ensures touched == []
      ensures db.store == if ok then Put(old(db.store), entries, old(touched), now) else old(db.store)
      ensures Ok(old(db.store)) ==> Ok(db.store)
    {
      if Ok(db.store) {
        PutOk(db.store, entries, touched, now);
      }
      hide Ok;
      if entries == [] && touched == [] {
        return;
      }
      var keys := touched;
      touched := [];
      if !ok {
        return;
      }
      var s := db.store;
      for i := 0 to |entries|
        invariant s == WriteAll(db.store, entries[..i], now)
      {
        assert entries[..i + 1][..i] == entries[..i];
        s := Write(s, entries[i], now);
      }
      assert entries[..|entries|] == entries;
      ghost var written := s;
      for i := 0 to |keys|
        invariant s == TouchAll(written, keys[..i], now)
      {
        assert keys[..i + 1][..i] == keys[..i];
        s := Touch(s, keys[i], now);
      }
      assert keys[..|keys|] == keys;
      db.store := s;
    }

    /**
     * Evicts until live data is at most the target. `live` is the engine's page accounting and `size` the file's size.
     * Alone on the database it ends at or below the target, or with nothing left, having removed only the oldest
     * entries.
     */
    method EnforceQuota(live: Store -> nat, size: nat, ghost cost: nat) returns (outcome: Outcome)
      requires Ok(db.store)
      modifies db
      ensures Ok(db.store)
      ensures size <= maxBytes ==> db.store == old(db.store) && outcome.evicted == 0
      ensures size > maxBytes ==> live(db.store) <= Target(maxBytes) || db.store.access == map[]
      ensures outcome.evicted == |old(db.store).access| - |db.store.access|
      ensures EvictedOldest(old(db.store), db.store)
      ensures EqualSizes(live, cost) && size > maxBytes ==>
        LeastEvicted(cost, Target(maxBytes), |old(db.store).access|, outcome.evicted)
    {
      hide Progress, Settled;
      ghost var start := db.store;
      NoProgress(start, live, cost, Target(maxBytes));
      if size <= maxBytes {
        NothingEvicted(start);
        return Outcome(0);
      }
      var evicted := 0;
      while true
        invariant Progress(start, db.store, evicted, live, cost, Target(maxBytes))
        decreases |db.store.access|
      {
        var s, removed := EvictOnce(start, db.store, evicted, live, cost, Target(maxBytes));
        if removed == 0 {
          break;
        }
        db.store := s;
        evicted := evicted + removed;
      }
      SettledMeans(start, db.store, evicted, live, cost, Target(maxBytes));
      return Outcome(evicted);
    }
  }

  /** How far an eviction has come. */
  ghost predicate Progress(start: Store, s: Store, evicted: nat, live: Store -> nat, cost: nat, target: nat) {
    && Ok(s) && EvictedOldest(start, s) && evicted == |start.access| - |s.access|
    && (EqualSizes(live, cost) ==> NoneTooMany(cost, target, |start.access|, evicted))
  }

  ghost predicate Settled(s: Store, live: Store -> nat, target: nat) {
    live(s) <= target || (s.access == map[] && s.payloads == map[])
  }

  lemma NoProgress(s: Store, live: Store -> nat, cost: nat, target: nat)
    requires Ok(s)
    ensures Progress(s, s, 0, live, cost, target)
  {
    NothingEvicted(s);
  }

  lemma SettledMeans(start: Store, s: Store, evicted: nat, live: Store -> nat, cost: nat, target: nat)
    requires Progress(start, s, evicted, live, cost, target) && Settled(s, live, target)
    ensures Ok(s) && EvictedOldest(start, s) && evicted == |start.access| - |s.access|
    ensures live(s) <= target || s.access == map[]
    ensures EqualSizes(live, cost) ==> LeastEvicted(cost, target, |start.access|, evicted)
  {
    EnoughEvicted(live, cost, s, target, |start.access|, evicted);
  }

  /**
   * One transaction: reads the live size and deletes one batch of the oldest entries. Nothing is removed only when the
   * live size fits or the store is empty; payload rows without an access row, which would be dropped next, cannot
   * exist.
   */
  method EvictOnce(ghost start: Store, s: Store, ghost evicted: nat, live: Store -> nat, ghost cost: nat, target: nat)
    returns (r: Store, removed: nat)
    requires Progress(start, s, evicted, live, cost, target)
    ensures Progress(start, r, evicted + removed, live, cost, target)
    ensures removed == 0 ==> r == s && Settled(s, live, target)
    ensures removed > 0 ==> |r.access| < |s.access|
  {
    hide EvictedOldest, EqualSizes, Ok, Older, OldestFirst, NoneTooMany, EvictionBatch, Delete;
    var bytes := live(s);
    if bytes <= target {
      return s, 0;
    }
    var batch := EvictionBatch(bytes, target, |s.access|);
    var keys := Oldest(s, batch);
    if keys == [] {
      EmptyStore(s);
      return s, 0;
    }
    EvictStep(start, s, keys);
    BatchNotTooMany(live, cost, s, target, |start.access|, evicted, |keys|);
    return Delete(s, set i | 0 <= i < |keys| :: keys[i]), |keys|;
  }

  function Target(maxBytes: nat): nat {
    maxBytes / 100 * TARGET_PERCENT
  }

  function CeilDiv(a: nat, b: nat): nat
    requires b > 0
  {
    (a + b - 1) / b
  }

  function EvictionBatch(live: nat, target: nat, entries: nat): (n: nat)
    ensures 1 <= n <= EVICTION_BATCH
  {
    var excess := if live > target then live - target else 0;
    var average := live / (if entries == 0 then 1 else entries);
    var wanted := CeilDiv(excess, if average == 0 then 1 else average);
    if wanted < 1 then 1 else if wanted > EVICTION_BATCH then EVICTION_BATCH else wanted
  }

  // ------------------------------------------------------------------ what eviction removes

  /** What is left is unchanged, and everything removed was older than everything left. */
  ghost predicate EvictedOldest(s: Store, s': Store) {
    && s'.payloads.Keys <= s.payloads.Keys && s'.access.Keys <= s.access.Keys
    && (forall k :: k in s'.payloads ==> s'.payloads[k] == s.payloads[k])
    && (forall k :: k in s'.access ==> s'.access[k] == s.access[k])
    && (forall e, k :: e in s.access && e !in s'.access && k in s'.access ==> Older(s.access[e], s.access[k]))
  }

  lemma NothingEvicted(s: Store)
    ensures EvictedOldest(s, s)
  {
  }

  lemma EvictStep(start: Store, s: Store, keys: seq<Bytes>)
    requires EvictedOldest(start, s) && Ok(s) && OldestFirst(s, keys)
    ensures
      var s' := Delete(s, set i | 0 <= i < |keys| :: keys[i]);
      Ok(s') && EvictedOldest(start, s') && |s'.access| == |s.access| - |keys|
  {
    var gone := set i | 0 <= i < |keys| :: keys[i];
    DeleteOk(s, gone);
    EvictCount(s, keys);
    EvictOrder(start, s, keys);
  }

  lemma EvictCount(s: Store, keys: seq<Bytes>)
    requires OldestFirst(s, keys)
    ensures |Delete(s, set i | 0 <= i < |keys| :: keys[i]).access| == |s.access| - |keys|
  {
    var gone := set i | 0 <= i < |keys| :: keys[i];
    KeysApart(s, keys);
    hide Older;
    SetOfKeys(keys);
    var left := Delete(s, gone).access;
    assert left.Keys == s.access.Keys - gone;
    assert |s.access.Keys - gone| == |s.access.Keys| - |gone|;
    assert |left| == |left.Keys| && |s.access| == |s.access.Keys|;
  }

  lemma EvictOrder(start: Store, s: Store, keys: seq<Bytes>)
    requires EvictedOldest(start, s) && OldestFirst(s, keys)
    ensures EvictedOldest(start, Delete(s, set i | 0 <= i < |keys| :: keys[i]))
  {
    hide Older;
    var gone := set i | 0 <= i < |keys| :: keys[i];
    var s' := Delete(s, gone);
    forall e, k | e in start.access && e !in s'.access && k in s'.access
      ensures Older(start.access[e], start.access[k]) {
      if e in s.access {
        var i :| 0 <= i < |keys| && keys[i] == e;
        assert k !in keys;
      }
    }
  }

  lemma KeysApart(s: Store, keys: seq<Bytes>)
    requires OldestFirst(s, keys)
    ensures forall i, j :: 0 <= i < j < |keys| ==> keys[i] != keys[j]
  {
  }

  lemma {:induction false} SetOfKeys(keys: seq<Bytes>)
    requires forall i, j :: 0 <= i < j < |keys| ==> keys[i] != keys[j]
    ensures |set i | 0 <= i < |keys| :: keys[i]| == |keys|
  {
    if keys != [] {
      var init := keys[..|keys| - 1];
      SetOfKeys(init);
      assert (set i | 0 <= i < |keys| :: keys[i]) == (set i | 0 <= i < |init| :: init[i]) + {keys[|keys| - 1]};
    }
  }

  lemma EmptyStore(s: Store)
    requires Ok(s) && |s.access| == 0
    ensures s.access == map[] && s.payloads == map[]
  {
    assert s.access.Keys == {};
  }

  // ------------------------------------------------------------------ how many it removes

  /** Entries of one size and no overhead. */
  ghost predicate EqualSizes(live: Store -> nat, cost: nat) {
    cost > 0 && forall s :: live(s) == cost * |s.access|
  }

  /** One removal fewer would have left more than the target. */
  ghost predicate NoneTooMany(cost: nat, target: nat, n: nat, evicted: nat) {
    evicted <= n && (evicted > 0 ==> cost * (n - evicted + 1) > target)
  }

  /** The least number of removals that reaches the target. */
  ghost predicate LeastEvicted(cost: nat, target: nat, n: nat, evicted: nat) {
    NoneTooMany(cost, target, n, evicted) && cost * (n - evicted) <= target
  }

  lemma EnoughEvicted(live: Store -> nat, cost: nat, s: Store, target: nat, n: nat, evicted: nat)
    requires evicted == n - |s.access| && (live(s) <= target || s.access == map[])
    requires EqualSizes(live, cost) ==> NoneTooMany(cost, target, n, evicted)
    ensures EqualSizes(live, cost) ==> LeastEvicted(cost, target, n, evicted)
  {
  }

  lemma AverageIsCost(cost: nat, m: nat)
    requires m > 0
    ensures cost * m / m == cost
  {
    var q := cost * m / m;
    assert q * m <= cost * m < (q + 1) * m;
    Cancel(q, cost + 1, m);
    Cancel(cost, q + 1, m);
  }

  lemma Cancel(a: nat, b: nat, m: nat)
    requires a * m < b * m
    ensures a < b
  {
    assert a >= b ==> a * m >= b * m;
  }

  lemma CeilBelow(a: nat, b: nat)
    requires a > 0 && b > 0
    ensures CeilDiv(a, b) >= 1 && (CeilDiv(a, b) - 1) * b < a
  {
    var w := (a + b - 1) / b;
    assert w * b <= a + b - 1;
    assert (w - 1) * b == w * b - b;
  }

  lemma NotTooMany(cost: nat, target: nat, m: nat, removed: nat)
    requires cost > 0 && m > 0 && cost * m > target && 1 <= removed <= m
    requires removed <= EvictionBatch(cost * m, target, m)
    ensures cost * (m - removed + 1) > target
  {
    BatchWanted(cost, target, m);
    CeilBelow(cost * m - target, cost);
    hide EvictionBatch, CeilDiv;
    Shrink(cost, target, m, removed, CeilDiv(cost * m - target, cost));
  }

  lemma BatchWanted(cost: nat, target: nat, m: nat)
    requires cost > 0 && m > 0 && cost * m > target
    ensures EvictionBatch(cost * m, target, m) <= CeilDiv(cost * m - target, cost)
  {
    AverageIsCost(cost, m);
    CeilBelow(cost * m - target, cost);
    hide CeilDiv;
  }

  lemma Shrink(cost: nat, target: nat, m: nat, removed: nat, wanted: nat)
    requires removed <= wanted && removed <= m && (wanted - 1) * cost < cost * m - target
    ensures cost * (m - removed + 1) > target
  {
    assert (removed - 1) * cost <= (wanted - 1) * cost;
    assert cost * (m - removed + 1) == cost * m - (removed - 1) * cost;
  }

  lemma BatchNotTooMany(live: Store -> nat, cost: nat, s: Store, target: nat, n: nat, evicted: nat, removed: nat)
    requires evicted == n - |s.access| && live(s) > target && 1 <= removed <= |s.access|
    requires removed <= EvictionBatch(live(s), target, |s.access|)
    ensures EqualSizes(live, cost) ==> NoneTooMany(cost, target, n, evicted + removed)
  {
    hide EvictionBatch;
    if EqualSizes(live, cost) {
      NotTooMany(cost, target, |s.access|, removed);
    }
  }

  // ------------------------------------------------------------------ every interleaving

  /** The shared store and what each process still has to flush. */
  datatype World = World(store: Store, touched: map<nat, seq<Bytes>>)

  /** Atomic steps: a read, a committed or failed batch, and one eviction transaction. */
  datatype Step =
    | Read(process: nat, x: Inputs)
    | Batch(process: nat, files: seq<Inputs>, now: nat)
    | FailedBatch(process: nat)
    | Evict(process: nat, keys: seq<Bytes>)

  function Pending(w: World, p: nat): seq<Bytes> {
    if p in w.touched then w.touched[p] else []
  }

  /** What deterministic extraction yields for each file, under its key. */
  function Extracted(sha: Sha, extract: Inputs -> Bytes, files: seq<Inputs>): (r: seq<Entry>)
    requires forall i :: 0 <= i < |files| ==> files[i].repo < 65536
    ensures |r| == |files| && forall i :: 0 <= i < |r| ==> r[i] == (KeyFor(sha, files[i]), extract(files[i]))
  {
    if files == [] then []
    else Extracted(sha, extract,
      files[..|files| - 1]) + [(KeyFor(sha, files[|files| - 1]), extract(files[|files| - 1]))]
  }

  ghost predicate Enabled(w: World, step: Step) {
    match step
    case Read(p, x) => x.Ok()
    case Batch(p, files, now) => forall i :: 0 <= i < |files| ==> files[i].Ok()
    case FailedBatch(p) => true
    case Evict(p, keys) => OldestFirst(w.store, keys)
  }

  ghost function After(sha: Sha, extract: Inputs -> Bytes, w: World, step: Step): World
    requires Enabled(w, step)
  {
    match step
    case Read(p, x) =>
      if KeyFor(sha, x) in w.store.payloads then w.(touched := w.touched[p := Pending(w, p) + [KeyFor(sha, x)]]) else w
    case Batch(p, files, now) =>
      World(Put(w.store, Extracted(sha, extract, files), Pending(w, p), now), w.touched[p := []])
    case FailedBatch(p) => w.(touched := w.touched[p := []])
    case Evict(p, keys) => w.(store := Delete(w.store, set i | 0 <= i < |keys| :: keys[i]))
  }

  ghost predicate Run(sha: Sha, extract: Inputs -> Bytes, worlds: seq<World>, steps: seq<Step>) {
    && |worlds| == |steps| + 1
    && forall i :: 0 <= i < |steps| ==>
         Enabled(worlds[i], steps[i]) && worlds[i + 1] == After(sha, extract, worlds[i], steps[i])
  }

  /** Every stored payload is the extraction of some file with that key. */
  ghost predicate Genuine(sha: Sha, extract: Inputs -> Bytes, s: Store) {
    forall k :: k in s.payloads ==> GenuineAt(sha, extract, k, s.payloads[k].data)
  }

  ghost predicate GenuineAt(sha: Sha, extract: Inputs -> Bytes, k: Bytes, data: Bytes) {
    exists x: Inputs :: x.Ok() && k == KeyFor(sha, x) && data == extract(x)
  }

  lemma {:induction false} WriteAllGenuine(sha: Sha, extract: Inputs -> Bytes, s: Store, entries: seq<Entry>, now: nat)
    requires Genuine(sha, extract, s)
    requires forall i :: 0 <= i < |entries| ==> GenuineAt(sha, extract, entries[i].0, entries[i].1)
    ensures Genuine(sha, extract, WriteAll(s, entries, now))
  {
    hide GenuineAt;
    if entries != [] {
      WriteAllGenuine(sha, extract, s, entries[..|entries| - 1], now);
    }
  }

  lemma StepKeeps(sha: Sha, extract: Inputs -> Bytes, w: World, step: Step)
    requires Ok(w.store) && Genuine(sha, extract, w.store) && Enabled(w, step)
    ensures Ok(After(sha, extract, w, step).store) && Genuine(sha, extract, After(sha, extract, w, step).store)
  {
    match step
    case Read(p, x) =>
    case FailedBatch(p) =>
    case Batch(p, files, now) =>
      var entries := Extracted(sha, extract, files);
      forall i | 0 <= i < |entries| ensures GenuineAt(sha, extract, entries[i].0, entries[i].1) {
        assert files[i].Ok() && entries[i] == (KeyFor(sha, files[i]), extract(files[i]));
      }
      hide Ok, Extracted, GenuineAt;
      PutOk(w.store, entries, Pending(w, p), now);
      WriteAllOk(w.store, entries, now);
      WriteAllGenuine(sha, extract, w.store, entries, now);
      TouchAllOk(WriteAll(w.store, entries, now), Pending(w, p), now);
    case Evict(p, keys) =>
      DeleteOk(w.store, set i | 0 <= i < |keys| :: keys[i]);
      hide Ok, GenuineAt;
  }

  /** In every interleaving, payload keys are access keys and every stored payload is a genuine extraction. */
  lemma {:induction false} RunKeeps(sha: Sha, extract: Inputs -> Bytes, worlds: seq<World>, steps: seq<Step>, n: nat)
    requires Run(sha, extract, worlds, steps) && n < |worlds| && worlds[0] == World(Store(map[], map[], 0), map[])
    ensures Ok(worlds[n].store) && Genuine(sha, extract, worlds[n].store)
  {
    if n > 0 {
      hide Ok, Genuine;
      RunKeeps(sha, extract, worlds, steps, n - 1);
      assert worlds[n - 1 + 1] == After(sha, extract, worlds[n - 1], steps[n - 1]);
      StepKeeps(sha, extract, worlds[n - 1], steps[n - 1]);
    }
  }

  ghost predicate Collision(sha: Sha, a: Bytes, b: Bytes) {
    a != b && sha(a) == sha(b)
  }

  /** A hit returns what extracting the file now would return, or the hash collides on two key texts. */
  lemma HitIsExtraction(sha: Sha, extract: Inputs -> Bytes, worlds: seq<World>, steps: seq<Step>, n: nat, x: Inputs)
    requires Run(sha, extract, worlds, steps) && n < |worlds| && worlds[0] == World(Store(map[], map[], 0), map[])
    requires x.Ok() && KeyFor(sha, x) in worlds[n].store.payloads
    ensures
      || worlds[n].store.payloads[KeyFor(sha, x)].data == extract(x)
      || exists y: Inputs :: y.Ok() && Collision(sha, KeyText(x), KeyText(y))
  {
    RunKeeps(sha, extract, worlds, steps, n);
    var k := KeyFor(sha, x);
    assert GenuineAt(sha, extract, k, worlds[n].store.payloads[k].data);
    var y: Inputs :| y.Ok() && k == KeyFor(sha, y) && worlds[n].store.payloads[k].data == extract(y);
    if KeyText(x) == KeyText(y) {
      KeyTextDetermines(x, y);
    } else {
      assert Collision(sha, KeyText(x), KeyText(y));
    }
  }

  // ------------------------------------------------------------------ recency

  lemma {:induction false} TouchedAt(s: Store, keys: seq<Bytes>, now: nat, k: Bytes)
    ensures k in TouchAll(s, keys, now).access <==> k in s.access
    ensures k in s.access ==>
      TouchAll(s, keys, now).access[k] == if k in keys then s.access[k].(at := now) else s.access[k]
  {
    if keys != [] {
      TouchedAt(s, keys[..|keys| - 1], now, k);
      assert keys == keys[..|keys| - 1] + [keys[|keys| - 1]];
    }
  }

  /** Entries a process was served survive an eviction after its flush as long as an entry last used earlier is left. */
  lemma ServedOutlive(s: Store, touched: seq<Bytes>, now: nat, evicted: seq<Bytes>, used: Bytes, idle: Bytes)
    requires used in touched && used in s.access && idle !in touched && idle in s.access && s.access[idle].at < now
    requires OldestFirst(TouchAll(s, touched, now), evicted) && used in evicted
    ensures idle in evicted
  {
    var s' := TouchAll(s, touched, now);
    TouchedAt(s, touched, now, used);
    TouchedAt(s, touched, now, idle);
    hide TouchAll;
    var i :| 0 <= i < |evicted| && evicted[i] == used;
  }

  // ------------------------------------------------------------------ what a batch leaves

  /** The last entry of the key in the batch. */
  ghost predicate LastEntry(entries: seq<Entry>, key: Bytes, data: Bytes) {
    exists i :: 0 <= i < |entries| && entries[i] == (key, data) && forall j :: i < j < |entries| ==> entries[j].0 != key
  }

  ghost predicate InBatch(entries: seq<Entry>, key: Bytes) {
    exists i :: 0 <= i < |entries| && entries[i].0 == key
  }

  lemma {:induction false} WriteAllLeaves(s: Store, entries: seq<Entry>, now: nat, key: Bytes)
    ensures
      var r := WriteAll(s, entries, now);
      && (forall data :: LastEntry(entries, key, data) ==>
           key in r.payloads && key in r.access && r.payloads[key].data == data && r.access[key].at == now)
      && (!InBatch(entries, key) ==>
           (key in r.payloads <==> key in s.payloads) && (key in r.access <==> key in s.access)
           && (key in s.payloads ==> r.payloads[key] == s.payloads[key])
           && (key in s.access ==> r.access[key] == s.access[key]))
  {
    if entries != [] {
      var n := |entries| - 1;
      var init, last := entries[..n], entries[n];
      WriteAllLeaves(s, init, now, key);
      if last.0 == key {
        forall data | LastEntry(entries, key, data) ensures last.1 == data {
          var i :| 0 <= i < |entries| && entries[i] == (key, data) && forall j :: i < j < |entries| ==>
            entries[j].0 != key;
          assert i == n;
        }
        assert InBatch(entries, key);
      } else {
        forall data | LastEntry(entries, key, data) ensures LastEntry(init, key, data) {
          var i :| 0 <= i < |entries| && entries[i] == (key, data) && forall j :: i < j < |entries| ==>
            entries[j].0 != key;
          assert init[i] == (key, data);
        }
        if InBatch(init, key) {
          var i :| 0 <= i < |init| && init[i].0 == key;
          assert entries[i].0 == key;
        }
      }
    }
  }

  lemma {:induction false} TouchAllLeaves(s: Store, keys: seq<Bytes>, now: nat, key: Bytes)
    ensures
      var r := TouchAll(s, keys, now);
      && r.payloads == s.payloads && (key in r.access <==> key in s.access)
      && (key in s.access ==>
           r.access[key].rowid == s.access[key].rowid
           && r.access[key].at == if key in keys then now else s.access[key].at)
  {
    if keys != [] {
      var n := |keys| - 1;
      TouchAllLeaves(s, keys[..n], now, key);
      assert keys == keys[..n] + [keys[n]];
    }
  }

  /**
   * After a batch each key of it serves its last entry, accessed now; of the others a touched key that is still stored
   * is accessed now, an evicted one stays away, and all else is as before.
   */
  lemma BatchLeaves(s: Store, entries: seq<Entry>, touched: seq<Bytes>, now: nat, key: Bytes)
    ensures
      var r := Put(s, entries, touched, now);
      && (forall data :: LastEntry(entries, key, data) ==>
           key in r.payloads && key in r.access && r.payloads[key].data == data && r.access[key].at == now)
      && (!InBatch(entries, key) ==>
           (key in r.payloads <==> key in s.payloads) && (key in r.access <==> key in s.access)
           && (key in s.payloads ==> r.payloads[key] == s.payloads[key])
           && (key in s.access ==> r.access[key].at == if key in touched then now else s.access[key].at))
  {
    hide WriteAll, TouchAll, LastEntry, InBatch;
    WriteAllLeaves(s, entries, now, key);
    TouchAllLeaves(WriteAll(s, entries, now), touched, now, key);
  }

  /** The hashed text: schema, path, content hash, repository in little-endian order, configuration. */
  lemma KeyTextLayout(x: Inputs)
    requires x.Ok()
    ensures
      var t, n := KeyText(x), |x.path|;
      && |t| == n + 67 && t[0] == 11 && t[1..n + 1] == x.path && t[n + 1..n + 33] == x.contentHash
      && t[n + 33] as int + 256 * (t[n + 34] as int) == x.repo && t[n + 35..] == x.config
  {
    var t, n := KeyText(x), |x.path|;
    assert t[n + 33..n + 35] == RepoBytes(x.repo);
    assert t[n + 33] == t[n + 33..n + 35][0] && t[n + 34] == t[n + 33..n + 35][1];
  }

  /** The target of an eviction is four fifths of the quota, rounded down to whole hundredths. */
  lemma TargetShare(maxBytes: nat)
    ensures 5 * Target(maxBytes) <= 4 * maxBytes < 5 * Target(maxBytes) + 400
    ensures maxBytes % 100 == 0 ==> 5 * Target(maxBytes) == 4 * maxBytes
  {
  }

  /** Evicted first is what was accessed longer ago, and of entries accessed together what was stored first. */
  lemma EvictionOrder(a: Access, b: Access)
    ensures a.at < b.at ==> Older(a, b) && !Older(b, a)
    ensures a.at == b.at && a.rowid < b.rowid ==> Older(a, b) && !Older(b, a)
  {
  }

  /** No batch of an eviction is larger than a thousand entries, and a large excess takes that many. */
  lemma BatchSize(live: nat, target: nat, entries: nat)
    ensures 1 <= EvictionBatch(live, target, entries) <= 1000 && EvictionBatch(2000, 0, 2000) == 1000
  {
  }
}
