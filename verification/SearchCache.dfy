/** The search result cache racing snapshot installs. */
module SearchCache {
  import opened Text

  /** The full shape of a request. */
  datatype Key = Key(
    query: string, scope: string, rawScope: string, includeBody: bool, fuzzy: bool, includeTests: bool, limit: nat,
      offset: nat)

  datatype Page = Page(text: string, filesAccessed: seq<string>)

  /** The indexed content a snapshot holds, up to what a search can tell apart. */
  type Content = string

  type Render = (Content, Key) -> Page

  const MAX_ENTRIES: nat := 256

  datatype Inner = Inner(generation: nat, entries: map<Key, Page>)

  /** `get` leaves the cache at the newest generation asked for. */
  function Looked(c: Inner, generation: nat): Inner {
    if generation > c.generation then Inner(generation, map[]) else c
  }

  function Found(c: Inner, generation: nat, key: Key): Option<Page> {
    if c.generation == generation && key in c.entries then Some(c.entries[key]) else None
  }

  function Inserted(c: Inner, generation: nat, key: Key, page: Page): Inner {
    if generation < c.generation then c
    else
      var entries := if generation > c.generation then map[] else c.entries;
      var room := if |entries| >= MAX_ENTRIES && key !in entries then map[] else entries;
      Inner(generation, room[key := page])
  }

  class Cache {
    var generation: nat
    var entries: map<Key, Page>

    function Value(): Inner
      reads this
    {
      Inner(generation, entries)
    }

    constructor ()
      ensures Value() == Inner(0, map[])
    {
      generation, entries := 0, map[];
    }

    method Get(g: nat, key: Key) returns (page: Option<Page>)
      modifies this
      ensures Value() == Looked(old(Value()), g) && page == Found(old(Value()), g, key)
    {
      if generation != g {
        if g > generation {
          entries := map[];
          generation := g;
        }
        return None;
      }
      return if key in entries then Some(entries[key]) else None;
    }

    method Insert(g: nat, key: Key, page: Page)
      modifies this
      ensures Value() == Inserted(old(Value()), g, key, page)
    {
      if g < generation {
        return;
      }
      if g > generation {
        entries := map[];
        generation := g;
      }
      if |entries| >= MAX_ENTRIES && key !in entries {
        entries := map[];
      }
      entries := entries[key := page];
    }
  }

  // ------------------------------------------------------------------ the protocol

  /** What one reader is doing. It keeps the snapshot it pinned until it answers. */
  datatype Reader =
    | Idle
    | Pinned(generation: nat, content: Content, key: Key)
    | Missed(generation: nat, content: Content, key: Key)
    | Answered(generation: nat, content: Content, key: Key, page: Page)

  /** The published snapshot, installers part-way through an install, the readers and the cache. */
  datatype State = State(
    generation: nat, content: Content, lock: Option<nat>, loaded: map<nat, nat>, readers: map<nat, Reader>,
      cache: Inner)

  datatype Step =
    | Lock(installer: nat)
    | Load(installer: nat)
    | Store(installer: nat, content: Content)
    | Unlock(installer: nat)
    | Pin(reader: nat, key: Key)
    | Lookup(reader: nat)
    | Compute(reader: nat)

  function ReaderOf(s: State, r: nat): Reader {
    if r in s.readers then s.readers[r] else Idle
  }

  /** `serialised` says whether installs are made under `reload_lock`. */
  predicate Enabled(serialised: bool, s: State, step: Step) {
    match step
    case Lock(i) => s.lock.None?
    case Load(i) => (serialised ==> s.lock == Some(i)) && i !in s.loaded
    case Store(i, c) => i in s.loaded
    case Unlock(i) => s.lock == Some(i) && i !in s.loaded
    case Pin(r, k) => true
    case Lookup(r) => ReaderOf(s, r).Pinned?
    case Compute(r) => ReaderOf(s, r).Missed?
  }

  function After(render: Render, serialised: bool, s: State, step: Step): State
    requires Enabled(serialised, s, step)
  {
    match step
    case Lock(i) => s.(lock := Some(i))
    case Load(i) => s.(loaded := s.loaded[i := s.generation])
    case Store(i, c) => s.(generation := s.loaded[i] + 1, content := c, loaded := s.loaded - {i})
    case Unlock(i) => s.(lock := None)
    case Pin(r, k) => s.(readers := s.readers[r := Pinned(s.generation, s.content, k)])
    case Lookup(r) =>
      var x := s.readers[r];
      var page := Found(s.cache, x.generation, x.key);
      var next := if page.Some? then Answered(x.generation, x.content, x.key, page.value)
        else Missed(x.generation, x.content, x.key);
      s.(cache := Looked(s.cache, x.generation), readers := s.readers[r := next])
    case Compute(r) =>
      var x := s.readers[r];
      var page := render(x.content, x.key);
      s.(cache := Inserted(s.cache, x.generation, x.key, page),
         readers := s.readers[r := Answered(x.generation, x.content, x.key, page)])
  }

  ghost predicate Run(render: Render, serialised: bool, states: seq<State>, steps: seq<Step>) {
    && |states| == |steps| + 1
    && forall i :: 0 <= i < |steps| ==>
         Enabled(serialised, states[i], steps[i]) && states[i + 1] == After(render, serialised, states[i], steps[i])
  }

  function Start(content: Content): State {
    State(0, content, None, map[], map[], Inner(0, map[]))
  }

  // ------------------------------------------------------------------ safety

  /** `history[g]` is the content published as generation `g`. */
  ghost predicate Recorded(history: seq<Content>, g: nat, c: Content) {
    g < |history| && history[g] == c
  }

  ghost predicate ReaderOk(render: Render, history: seq<Content>, x: Reader) {
    match x
    case Idle => true
    case Pinned(g, c, k) => Recorded(history, g, c)
    case Missed(g, c, k) => Recorded(history, g, c)
    case Answered(g, c, k, p) => Recorded(history, g, c) && p == render(c, k)
  }

  /** All pages are of the cache's one generation, and there are at most 256 of them. */
  ghost predicate CacheOk(render: Render, history: seq<Content>, c: Inner) {
    && c.generation < |history| && |c.entries| <= MAX_ENTRIES
    && forall k :: k in c.entries ==> c.entries[k] == render(history[c.generation], k)
  }

  ghost predicate Safe(render: Render, history: seq<Content>, s: State) {
    && s.generation + 1 == |history| && history[s.generation] == s.content
    && (forall i :: i in s.loaded ==> s.lock == Some(i) && s.loaded[i] == s.generation)
    && (forall r :: r in s.readers ==> ReaderOk(render, history, s.readers[r]))
    && CacheOk(render, history, s.cache)
  }

  lemma InsertBound(entries: map<Key, Page>, key: Key, page: Page)
    requires |entries| <= MAX_ENTRIES
    ensures
      var room := if |entries| >= MAX_ENTRIES && key !in entries then map[] else entries;
      |room[key := page]| <= MAX_ENTRIES
  {
    var room := if |entries| >= MAX_ENTRIES && key !in entries then map[] else entries;
    var next := room[key := page];
    assert next.Keys == room.Keys + {key};
    if key in room {
      assert next.Keys == room.Keys;
    }
    assert |next| == |next.Keys| && |room| == |room.Keys|;
  }

  lemma InsertOk(render: Render, history: seq<Content>, c: Inner, g: nat, key: Key)
    requires CacheOk(render, history, c) && g < |history|
    ensures CacheOk(render, history, Inserted(c, g, key, render(history[g], key)))
  {
    InsertBound(if g > c.generation then map[] else c.entries, key, render(history[g], key));
  }

  /** A published snapshot keeps every earlier generation's record. */
  lemma Published(render: Render, history: seq<Content>, c: Content, s: State)
    requires Safe(render, history, s)
    ensures CacheOk(render, history + [c], s.cache)
    ensures forall r :: r in s.readers ==> ReaderOk(render, history + [c], s.readers[r])
  {
  }

  ghost function Extended(history: seq<Content>, step: Step): seq<Content> {
    if step.Store? then history + [step.content] else history
  }

  lemma StepSafe(render: Render, history: seq<Content>, s: State, step: Step)
    requires Safe(render, history, s) && Enabled(true, s, step)
    ensures Safe(render, Extended(history, step), After(render, true, s, step))
  {
    if step.Store? {
      Published(render, history, step.content, s);
    } else if step.Compute? {
      assert ReaderOk(render, history, s.readers[step.reader]);
      InsertOk(render, history, s.cache, s.readers[step.reader].generation, s.readers[step.reader].key);
    } else if step.Lookup? {
      assert ReaderOk(render, history, s.readers[step.reader]);
    }
  }

  ghost function History(content: Content, steps: seq<Step>): seq<Content> {
    if steps == [] then [content] else Extended(History(content, steps[..|steps| - 1]), steps[|steps| - 1])
  }

  lemma {:induction false} RunSafe(render: Render, content: Content, states: seq<State>, steps: seq<Step>, n: nat)
    requires Run(render, true, states, steps) && states[0] == Start(content) && n < |states|
    ensures Safe(render, History(content, steps[..n]), states[n])
  {
    if n > 0 {
      RunSafe(render, content, states, steps, n - 1);
      assert steps[..n][..n - 1] == steps[..n - 1];
      assert states[n - 1 + 1] == After(render, true, states[n - 1], steps[n - 1]);
      StepSafe(render, History(content, steps[..n - 1]), states[n - 1], steps[n - 1]);
    }
  }

  /**
   * With installs serialised, in every interleaving each answer is the page computed from the content the reader
   * pinned, and the cache holds pages of one generation only, at most 256.
   */
  lemma AnswersAreExact(render: Render, content: Content, states: seq<State>, steps: seq<Step>, n: nat)
    requires Run(render, true, states, steps) && states[0] == Start(content) && n < |states|
    ensures forall r :: r in states[n].readers && states[n].readers[r].Answered? ==>
      states[n].readers[r].page == render(states[n].readers[r].content, states[n].readers[r].key)
    ensures CacheOk(render, History(content, steps[..n]), states[n].cache)
  {
    RunSafe(render, content, states, steps, n);
  }

  // ------------------------------------------------------------------ without the lock

  const ASK := Key("orders", "/ws", "/ws", false, false, false, 20, 0)

  function Plain(content: Content, key: Key): Page {
    Page(content, [])
  }

  /**
   * Two installers read the same generation and publish different content under one number: a reader gets the other's
   * page.
   */
  lemma UnserialisedInstallsMix() returns (states: seq<State>, steps: seq<Step>)
    ensures Run(Plain, false, states, steps) && states[0] == Start("a")
    ensures
      var last := states[|states| - 1];
      1 in last.readers && last.readers[1].Answered?
      && last.readers[1].page != Plain(last.readers[1].content, last.readers[1].key)
  {
    hide Run;
    states, steps := [Start("a")], [];
    assert Run(Plain, false, states, steps) by { NoSteps(Plain, false, Start("a")); }
    states, steps := Go(Plain, false, states, steps, Load(0));
    states, steps := Go(Plain, false, states, steps, Load(1));
    assert states[|states| - 1] == State(0, "a", None, map[0 := 0, 1 := 0], map[], Inner(0, map[]));
    states, steps := Go(Plain, false, states, steps, Store(0, "b"));
    states, steps := Go(Plain, false, states, steps, Pin(0, ASK));
    assert states[|states| - 1] == State(1, "b", None, map[1 := 0], map[0 := Pinned(1, "b", ASK)], Inner(0, map[]));
    states, steps := Go(Plain, false, states, steps, Lookup(0));
    states, steps := Go(Plain, false, states, steps, Compute(0));
    assert states[|states| - 1]
      == State(1, "b", None, map[1 := 0], map[0 := Answered(1, "b", ASK, Page("b", []))],
           Inner(1, map[ASK := Page("b", [])]));
    states, steps := Go(Plain, false, states, steps, Store(1, "c"));
    states, steps := Go(Plain, false, states, steps, Pin(1, ASK));
    assert states[|states| - 1].readers[1] == Pinned(1, "c", ASK);
    states, steps := Go(Plain, false, states, steps, Lookup(1));
    assert states[|states| - 1].readers[1] == Answered(1, "c", ASK, Page("b", []));
    assert "b"[0] != "c"[0];
  }

  lemma NoSteps(render: Render, serialised: bool, s: State)
    ensures Run(render, serialised, [s], [])
  {
  }

  lemma Go(render: Render, serialised: bool, states: seq<State>, steps: seq<Step>, step: Step)
    returns (states': seq<State>, steps': seq<Step>)
    requires Run(render, serialised, states, steps) && states != [] && Enabled(serialised, states[|states| - 1], step)
    ensures Run(render, serialised, states', steps') && states' != [] && states'[0] == states[0]
    ensures states'[|states'| - 1] == After(render, serialised, states[|states| - 1], step)
  {
    hide After, Enabled;
    states', steps' := states + [After(render, serialised, states[|states| - 1], step)], steps + [step];
  }

  // ------------------------------------------------------------------ what an insertion leaves

  /** A page inserted at the newest generation is found at it and only there. */
  lemma InsertedIsFound(c: Inner, g: nat, key: Key, page: Page, g': nat)
    requires g >= c.generation
    ensures Found(Inserted(c, g, key, page), g', key) == if g' == g then Some(page) else None
  {
  }

  /**
   * Another page is still found exactly when it was of this generation and the cache had room, or held the key already.
   */
  lemma OthersStay(c: Inner, g: nat, key: Key, page: Page, other: Key)
    requires g >= c.generation && other != key
    ensures Found(Inserted(c, g, key, page), g, other)
         == if g == c.generation && (|c.entries| < 256 || key in c.entries) then Found(c, g, other) else None
  {
  }

  /**
   * A page of an older generation is dropped; asking for a newer generation empties the cache, asking for others does
   * not.
   */
  lemma OlderDropped(c: Inner, g: nat, key: Key, page: Page)
    ensures g < c.generation ==> Inserted(c, g, key, page) == c
    ensures g > c.generation ==> Looked(c, g) == Inner(g, map[])
    ensures g <= c.generation ==> Looked(c, g) == c
  {
  }
}
