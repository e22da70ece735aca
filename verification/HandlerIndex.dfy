/** The lookup index over handlers: it may only prune pairs the match predicate rejects. */
module HandlerIndex {
  import opened Text
  import opened GraphModel
  import opened Handlers

  datatype Index = Index(keys: map<string, seq<nat>>, sigIdents: seq<(string, nat)>, withSignature: seq<nat>)

  /** Handler `i` is listed under the key. */
  predicate Under(keys: map<string, seq<nat>>, key: string, i: nat) {
    key in keys && i in keys[key]
  }

  function Listed(keys: map<string, seq<nat>>, key: string): (r: seq<nat>)
    ensures forall i: nat :: i in r <==> Under(keys, key, i)
  {
    if key in keys then keys[key] else []
  }

  /** `ident` is a non-empty identifier following one of the signature prefixes. */
  ghost predicate IdentIn(lib: Lib, sig: string, ident: string) {
    ident != "" && exists start :: 0 <= start <= |sig| && StartIn(sig, start) && ident == Ident(lib, sig[start..])
  }

  /** The keys a handler is indexed under. */
  ghost predicate HasKey(lib: Lib, h: Handler, key: string) {
    || key == "f:" + h.name
    || key == "l:" + AsciiLower(LastSegment(h.name))
    || key == "n:" + Normalized(LastSegment(h.name))
    || key == "p:" + h.pascal
    || (h.signature.Some?
       && exists x :: IdentIn(lib, h.signature.value, x) && key in {"l:" + AsciiLower(x), "n:" + Normalized(x)})
  }

  ghost predicate SortedIdents(s: seq<(string, nat)>) {
    forall i, j :: 0 <= i < j < |s| ==> !Less(s[j].0, s[i].0)
  }

  ghost predicate KeysOk(lib: Lib, hs: seq<Handler>, keys: map<string, seq<nat>>) {
    forall key, i: nat :: Under(keys, key, i) <==> i < |hs| && HasKey(lib, hs[i], key)
  }

  ghost predicate IdentsOk(lib: Lib, hs: seq<Handler>, idents: seq<(string, nat)>) {
    && SortedIdents(idents)
    && forall x, i: nat ::
         (x, i) in idents <==> i < |hs| && hs[i].signature.Some? && IdentIn(lib, hs[i].signature.value, x)
  }

  ghost predicate SignedOk(hs: seq<Handler>, signed: seq<nat>) {
    forall i: nat :: i in signed <==> i < |hs| && hs[i].signature.Some?
  }

  ghost predicate Ok(lib: Lib, hs: seq<Handler>, ix: Index) {
    KeysOk(lib, hs, ix.keys) && IdentsOk(lib, hs, ix.sigIdents) && SignedOk(hs, ix.withSignature)
  }

  // ------------------------------------------------------------------ build

  /** The identifiers after one prefix. */
  ghost predicate IdentAfter(lib: Lib, sig: string, starts: seq<nat>, n: nat, x: string)
    requires n <= |starts| && forall i :: 0 <= i < |starts| ==> starts[i] <= |sig|
  {
    x != "" && exists i :: 0 <= i < n && x == Ident(lib, sig[starts[i]..])
  }

  method ScanIdents(lib: Lib, sig: string, prefix: string) returns (idents: set<string>)
    requires |prefix| > 0
    ensures forall x :: x in idents <==> IdentAfter(lib, sig, Starts(sig, prefix, 0), |Starts(sig, prefix, 0)|, x)
  {
    hide Ident, IdentAfter, Starts, Find;
    ghost var all := Starts(sig, prefix, 0);
    ghost var n := 0;
    var offset := 0;
    idents := {};
    NoIdent(lib, sig, all);
    while true
      invariant 0 <= offset <= |sig| && 0 <= n <= |all|
      invariant all[n..] == Starts(sig, prefix, offset)
      invariant forall x :: x in idents <==> IdentAfter(lib, sig, all, n, x)
      decreases |sig| - offset
    {
      match Find(sig, prefix, offset)
      case None =>
        NextStart(sig, prefix, offset, all, n);
        return;
      case Some(pos) =>
        var start := pos + |prefix|;
        NextStart(sig, prefix, offset, all, n);
        var ident := Ident(lib, sig[start..]);
        forall x { OneMoreIdent(lib, sig, all, n, x); }
        if ident != "" {
          idents := idents + {ident};
        }
        offset, n := start, n + 1;
    }
  }

  /** The scan's next hit is the next start, and the rest are the starts from there on. */
  lemma NextStart(sig: string, prefix: string, offset: nat, all: seq<nat>, n: nat)
    requires offset <= |sig| && |prefix| > 0 && n <= |all| && all[n..] == Starts(sig, prefix, offset)
    ensures Find(sig, prefix, offset).None? ==> n == |all|
    ensures Find(sig, prefix, offset).Some? ==>
      var start := Find(sig, prefix, offset).value + |prefix|;
      n < |all| && all[n] == start && all[n + 1..] == Starts(sig, prefix, start)
  {
    hide Find;
    if n < |all| {
      assert all[n..][0] == all[n] && all[n + 1..] == all[n..][1..];
    }
  }

  lemma NoIdent(lib: Lib, sig: string, starts: seq<nat>)
    requires forall i :: 0 <= i < |starts| ==> starts[i] <= |sig|
    ensures forall x :: !IdentAfter(lib, sig, starts, 0, x)
  {
  }

  lemma OneMoreIdent(lib: Lib, sig: string, starts: seq<nat>, n: nat, x: string)
    requires n < |starts| && forall i :: 0 <= i < |starts| ==> starts[i] <= |sig|
    ensures IdentAfter(lib, sig, starts, n + 1, x)
      <==> IdentAfter(lib, sig, starts, n, x) || (x != "" && x == Ident(lib, sig[starts[n]..]))
  {
    hide Ident;
    if IdentAfter(lib, sig, starts, n, x) {
      var i :| 0 <= i < n && x == Ident(lib, sig[starts[i]..]);
      assert 0 <= i < n + 1 && x == Ident(lib, sig[starts[i]..]);
    }
  }

  method SignatureIdents(lib: Lib, sig: string) returns (idents: set<string>)
    ensures forall x :: x in idents <==> IdentIn(lib, sig, x)
  {
    hide Starts, Ident, IdentAfter, IdentIn;
    PrefixesNonempty();
    idents := {};
    for p := 0 to |PREFIXES|
      invariant forall x :: x in idents <==>
        exists q :: 0 <= q < p && IdentAfter(lib, sig, Starts(sig, PREFIXES[q], 0), |Starts(sig, PREFIXES[q], 0)|, x)
    {
      var found := ScanIdents(lib, sig, PREFIXES[p]);
      idents := idents + found;
    }
    forall x {
      IdentInPrefixes(lib, sig, x);
    }
  }

  lemma IdentInPrefixes(lib: Lib, sig: string, x: string)
    ensures IdentIn(lib, sig, x)
      <==> exists q ::
           0 <= q < |PREFIXES| && |PREFIXES[q]| > 0
           && IdentAfter(lib, sig, Starts(sig, PREFIXES[q], 0), |Starts(sig, PREFIXES[q], 0)|, x)
  {
    hide Starts, Ident;
    if IdentIn(lib, sig, x) {
      var start :| 0 <= start <= |sig| && StartIn(sig, start) && x == Ident(lib, sig[start..]);
      var q :| 0 <= q < |PREFIXES| && |PREFIXES[q]| > 0 && start in Starts(sig, PREFIXES[q], 0);
      var all := Starts(sig, PREFIXES[q], 0);
      var i :| 0 <= i < |all| && all[i] == start;
      assert IdentAfter(lib, sig, all, |all|, x);
    }
    if exists q ::
      0 <= q < |PREFIXES| && |PREFIXES[q]| > 0
      && IdentAfter(lib, sig, Starts(sig, PREFIXES[q], 0), |Starts(sig, PREFIXES[q], 0)|, x) {
      var q :| 0 <= q < |PREFIXES| && |PREFIXES[q]| > 0
        && IdentAfter(lib, sig, Starts(sig, PREFIXES[q], 0), |Starts(sig, PREFIXES[q], 0)|, x);
      var all := Starts(sig, PREFIXES[q], 0);
      var i :| 0 <= i < |all| && x == Ident(lib, sig[all[i]..]);
      assert all[i] in all;
      assert StartIn(sig, all[i]);
    }
  }

  method InsertIdent(s: seq<(string, nat)>, x: (string, nat)) returns (r: seq<(string, nat)>)
    requires SortedIdents(s)
    ensures SortedIdents(r)
    ensures forall y :: y in r <==> y in s || y == x
  {
    var i := |s|;
    while i > 0 && Less(x.0, s[i - 1].0)
      invariant 0 <= i <= |s|
      invariant forall j :: i <= j < |s| ==> Less(x.0, s[j].0)
    {
      i := i - 1;
    }
    r := s[..i] + [x] + s[i..];
    forall a, b | 0 <= a < b < |r| ensures !Less(r[b].0, r[a].0) {
      if b == i {
        LessTotal(s[a].0, s[i - 1].0);
        LessTotal(x.0, s[i - 1].0);
        if Less(x.0, s[a].0) && Less(s[a].0, s[i - 1].0) {
          LessTransitive(x.0, s[a].0, s[i - 1].0);
        }
      } else if a == i {
        LessTotal(x.0, r[b].0);
      }
    }
  }

  /** The keys of one handler. */
  method OwnKeys(lib: Lib, h: Handler) returns (own: set<string>, idents: set<string>)
    ensures forall key :: key in own <==> HasKey(lib, h, key)
    ensures forall x :: x in idents <==> h.signature.Some? && IdentIn(lib, h.signature.value, x)
  {
    hide IdentIn;
    var last := LastSegment(h.name);
    own := {"f:" + h.name, "l:" + AsciiLower(last), "n:" + Normalized(last), "p:" + h.pascal};
    idents := {};
    if h.signature.Some? {
      idents := SignatureIdents(lib, h.signature.value);
      own := own + (set x | x in idents :: "l:" + AsciiLower(x)) + (set x | x in idents :: "n:" + Normalized(x));
    }
  }

  /** Lists handler `i` under each of its keys. */
  method ListUnder(keys: map<string, seq<nat>>, own: set<string>, i: nat) returns (r: map<string, seq<nat>>)
    ensures forall key, x: nat :: Under(r, key, x) <==> Under(keys, key, x) || (key in own && x == i)
  {
    r := keys;
    var todo := own;
    while todo != {}
      invariant todo <= own
      invariant forall key, x: nat ::
        Under(r, key, x) <==> Under(keys, key, x) || (key in own && key !in todo && x == i)
    {
      var key :| key in todo;
      var ids := Listed(r, key) + [i];
      assert forall x: nat :: x in ids <==> Under(r, key, x) || x == i;
      ghost var before := r;
      r := r[key := ids];
      assert forall x: nat :: Under(r, key, x) <==> Under(before, key, x) || x == i;
      assert forall k, x: nat :: k != key ==> (Under(r, k, x) <==> Under(before, k, x));
      todo := todo - {key};
    }
  }

  method ListIdents(s: seq<(string, nat)>, idents: set<string>, i: nat) returns (r: seq<(string, nat)>)
    requires SortedIdents(s)
    ensures SortedIdents(r)
    ensures forall y :: y in r <==> y in s || (y.0 in idents && y.1 == i)
  {
    r := s;
    var todo := idents;
    while todo != {}
      invariant todo <= idents
      invariant SortedIdents(r)
      invariant forall y :: y in r <==> y in s || (y.0 in idents && y.0 !in todo && y.1 == i)
    {
      var x :| x in todo;
      r := InsertIdent(r, (x, i));
      todo := todo - {x};
    }
  }

  method Build(lib: Lib, hs: seq<Handler>) returns (ix: Index)
    ensures Ok(lib, hs, ix)
  {
    hide HasKey, IdentIn, SortedIdents, KeysOk, SignedOk;
    ix := Index(map[], [], []);
    EmptyOk(lib);
    for i := 0 to |hs|
      invariant Ok(lib, hs[..i], ix)
    {
      var own, idents := OwnKeys(lib, hs[i]);
      var keys := ListUnder(ix.keys, own, i);
      var sigIdents := ListIdents(ix.sigIdents, idents, i);
      var withSignature := if hs[i].signature.Some? then ix.withSignature + [i] else ix.withSignature;
      ExtendOk(lib, hs[..i], hs[i], ix, own, idents, Index(keys, sigIdents, withSignature));
      ix := Index(keys, sigIdents, withSignature);
      assert hs[..i + 1] == hs[..i] + [hs[i]];
    }
    assert hs[..|hs|] == hs;
  }

  lemma ExtendOk(lib: Lib, hs: seq<Handler>, h: Handler, ix: Index, own: set<string>, idents: set<string>, ix': Index)
    requires Ok(lib, hs, ix)
    requires forall key :: key in own <==> HasKey(lib, h, key)
    requires forall x :: x in idents <==> h.signature.Some? && IdentIn(lib, h.signature.value, x)
    requires forall key, x: nat :: Under(ix'.keys, key, x) <==> Under(ix.keys, key, x) || (key in own && x == |hs|)
    requires SortedIdents(ix'.sigIdents)
    requires forall y :: y in ix'.sigIdents <==> y in ix.sigIdents || (y.0 in idents && y.1 == |hs|)
    requires ix'.withSignature == if h.signature.Some? then ix.withSignature + [|hs|] else ix.withSignature
    ensures Ok(lib, hs + [h], ix')
  {
    hide HasKey, IdentIn, SortedIdents;
    var hs' := hs + [h];
    forall key, i: nat ensures Under(ix'.keys, key, i) <==> i < |hs'| && HasKey(lib, hs'[i], key) {}
    forall x, i: nat
      ensures (x, i) in ix'.sigIdents
        <==> i < |hs'| && hs'[i].signature.Some? && IdentIn(lib, hs'[i].signature.value, x) {}
    forall i: nat ensures i in ix'.withSignature <==> i < |hs'| && hs'[i].signature.Some? {}
  }

  lemma EmptyOk(lib: Lib)
    ensures Ok(lib, [], Index(map[], [], []))
  {
  }

  // ------------------------------------------------------------------ candidates

  predicate Ascending(s: seq<nat>) {
    forall i, j :: 0 <= i < j < |s| ==> s[i] < s[j]
  }

  /** `out.sort_unstable(); out.dedup()`. */
  method SortDedup(s: seq<nat>) returns (r: seq<nat>)
    ensures Ascending(r)
    ensures forall x :: x in r <==> x in s
  {
    r := [];
    for n := 0 to |s|
      invariant Ascending(r)
      invariant forall x :: x in r <==> x in s[..n]
    {
      var i := |r|;
      while i > 0 && s[n] < r[i - 1]
        invariant 0 <= i <= |r|
        invariant forall j :: i <= j < |r| ==> s[n] < r[j]
      {
        i := i - 1;
      }
      if i == 0 || r[i - 1] != s[n] {
        r := r[..i] + [s[n]] + r[i..];
      }
      assert s[..n + 1] == s[..n] + [s[n]];
    }
    assert s[..|s|] == s;
  }

  /** Between a prefix and a word that starts with it, every word starts with it. */
  lemma {:induction false} PrefixRun(bare: string, y: string, x: string)
    requires bare <= x && !Less(y, bare) && !Less(x, y)
    ensures bare <= y
  {
    if bare != "" {
      assert y != "";
      assert y[0] == x[0] == bare[0];
      PrefixRun(bare[1..], y[1..], x[1..]);
      assert y == [y[0]] + y[1..];
    }
  }

  lemma {:induction false} PrefixNotLess(bare: string, x: string)
    requires bare <= x
    ensures !Less(x, bare)
  {
    if bare != "" {
      PrefixNotLess(bare[1..], x[1..]);
    }
  }

  /** Where the sorted list stops being less than `bare`, by binary search. */
  method PartitionPoint(idents: seq<(string, nat)>, bare: string) returns (start: nat)
    requires SortedIdents(idents)
    ensures start <= |idents|
    ensures forall n :: 0 <= n < start ==> Less(idents[n].0, bare)
    ensures forall n :: start <= n < |idents| ==> !Less(idents[n].0, bare)
  {
    hide Less;
    start := 0;
    var end := |idents|;
    while start < end
      invariant 0 <= start <= end <= |idents|
      invariant forall n :: 0 <= n < start ==> Less(idents[n].0, bare)
      invariant forall n :: end <= n < |idents| ==> !Less(idents[n].0, bare)
    {
      var mid := (start + end) / 2;
      if Less(idents[mid].0, bare) {
        forall n | 0 <= n < mid ensures Less(idents[n].0, bare) {
          SortedStep(idents[n].0, idents[mid].0, bare);
        }
        start := mid + 1;
      } else {
        forall n | mid < n < |idents| ensures !Less(idents[n].0, bare) {
          if Less(idents[n].0, bare) { SortedStep(idents[mid].0, idents[n].0, bare); }
        }
        end := mid;
      }
    }
  }

  /** The handlers whose signature identifiers start with `bare`: one contiguous run of the sorted list. */
  method PrefixRange(idents: seq<(string, nat)>, bare: string) returns (out: seq<nat>)
    requires SortedIdents(idents)
    ensures forall i: nat :: i in out <==> InRun(idents, bare, i)
  {
    var start := PartitionPoint(idents, bare);
    var end := start;
    out := [];
    while end < |idents| && bare <= idents[end].0
      invariant start <= end <= |idents|
      invariant forall i :: i in out <==> exists n :: start <= n < end && bare <= idents[n].0 && idents[n].1 == i
    {
      out := out + [idents[end].1];
      end := end + 1;
    }
    forall n | 0 <= n < |idents| && bare <= idents[n].0 ensures start <= n < end {
      PrefixNotLess(bare, idents[n].0);
      if end <= n {
        RunGoesOn(idents, bare, end, n);
        assert false;
      }
    }
  }

  lemma RunGoesOn(idents: seq<(string, nat)>, bare: string, end: nat, n: nat)
    requires SortedIdents(idents) && end <= n < |idents| && bare <= idents[n].0 && !Less(idents[end].0, bare)
    ensures bare <= idents[end].0
  {
    if end < n {
      PrefixRun(bare, idents[end].0, idents[n].0);
    }
  }

  lemma SortedStep(a: string, b: string, c: string)
    requires !Less(b, a) && Less(b, c)
    ensures Less(a, c)
  {
    LessTotal(a, b);
    if Less(a, b) {
      LessTransitive(a, b, c);
    }
  }

  /** Every handler that may implement `fqcn`, ascending: none the predicate accepts is left out. */
  method Candidates(lib: Lib, ghost hs: seq<Handler>, ix: Index, fqcn: string, bare: string) returns (out: seq<nat>)
    requires Ok(lib, hs, ix) && bare == LastSegment(fqcn) && !lib.alphanumeric('.')
    ensures Ascending(out)
    ensures forall i :: i in out ==> i < |hs|
    ensures forall i :: 0 <= i < |hs| && MatchConfidence(lib, hs[i], fqcn).Some? ==> i in out
  {
    hide HasKey, IdentIn, SortedIdents, MatchConfidence, Normalized, IdentChar;
    out := Listed(ix.keys, "f:" + fqcn) + Listed(ix.keys, "l:" + AsciiLower(bare));
    var norm := Normalized(bare);
    if norm != "" {
      out := out + Listed(ix.keys, "n:" + norm);
    }
    out := out + Listed(ix.keys, "p:" + bare);
    if bare != "" {
      var run := PrefixRange(ix.sigIdents, bare);
      out := out + run;
      if exists k :: 0 <= k < |bare| && !IdentChar(lib, bare[k]) {
        out := out + ix.withSignature;
      }
    }
    ghost var joined := out;
    out := SortDedup(out);
    forall i: nat ensures i in out <==> Joined(lib, ix, fqcn, i) {
      assert i in out <==> i in joined;
    }
    forall i: nat {
      JoinedInRange(lib, hs, ix, fqcn, i);
    }
    forall i | 0 <= i < |hs| && MatchConfidence(lib, hs[i], fqcn).Some? ensures i in out {
      NeverPruned(lib, hs, ix, i, fqcn);
    }
  }

  /** Some signature identifier of handler `i` starts with `bare`. */
  ghost predicate InRun(idents: seq<(string, nat)>, bare: string, i: nat) {
    exists n :: 0 <= n < |idents| && bare <= idents[n].0 && idents[n].1 == i
  }

  /** The lists `candidates` joins. */
  ghost predicate Joined(lib: Lib, ix: Index, fqcn: string, i: nat) {
    var bare := LastSegment(fqcn);
    || Under(ix.keys, "f:" + fqcn, i) || Under(ix.keys, "l:" + AsciiLower(bare), i) || Under(ix.keys, "p:" + bare, i)
    || (Normalized(bare) != "" && Under(ix.keys, "n:" + Normalized(bare), i))
    || (bare != "" && InRun(ix.sigIdents, bare, i))
    || (bare != "" && (exists k :: 0 <= k < |bare| && !IdentChar(lib, bare[k])) && i in ix.withSignature)
  }

  lemma JoinedInRange(lib: Lib, hs: seq<Handler>, ix: Index, fqcn: string, i: nat)
    requires Ok(lib, hs, ix)
    ensures Joined(lib, ix, fqcn, i) ==> i < |hs|
  {
    hide HasKey, IdentIn, SortedIdents, Normalized;
    if InRun(ix.sigIdents, LastSegment(fqcn), i) {
      var n :| 0 <= n < |ix.sigIdents| && ix.sigIdents[n].1 == i;
      assert (ix.sigIdents[n].0, i) in ix.sigIdents;
    }
  }

  lemma AsciiLowerDot(s: string)
    ensures '.' in s <==> '.' in AsciiLower(s)
  {
    forall i | 0 <= i < |s| ensures s[i] == '.' <==> AsciiLower(s)[i] == '.' {
    }
  }

  lemma {:induction false} IdentExtends(lib: Lib, bare: string, rest: string)
    requires bare <= rest && forall k :: 0 <= k < |bare| ==> IdentChar(lib, bare[k])
    ensures bare <= Ident(lib, rest)
  {
    if bare != "" {
      assert rest[0] == bare[0] && IdentChar(lib, bare[0]);
      forall k | 0 <= k < |bare[1..]| ensures IdentChar(lib, bare[1..][k]) {
        assert bare[1..][k] == bare[k + 1];
      }
      IdentExtends(lib, bare[1..], rest[1..]);
    }
  }

  /** A signature hit is found through the identifier's keys, the prefix range or the fallback list. */
  lemma SignatureHitJoined(lib: Lib, hs: seq<Handler>, ix: Index, i: nat, fqcn: string)
    requires Ok(lib, hs, ix) && i < |hs| && !lib.alphanumeric('.')
    requires hs[i].signature.Some? && SignatureContains(lib, hs[i].signature.value, LastSegment(fqcn))
    ensures Joined(lib, ix, fqcn, i)
  {
    hide StartIn, SortedIdents, Normalized;
    var sig, bare := hs[i].signature.value, LastSegment(fqcn);
    var start :| 0 <= start <= |sig| && StartIn(sig, start) && MatchesAt(lib, sig, bare, start);
    var ident := Ident(lib, sig[start..]);
    if exists k :: 0 <= k < |bare| && !IdentChar(lib, bare[k]) {
      assert i in ix.withSignature;
    } else if bare <= sig[start..] {
      IdentExtends(lib, bare, sig[start..]);
      assert IdentIn(lib, sig, ident);
      assert (ident, i) in ix.sigIdents;
      assert InRun(ix.sigIdents, bare, i);
    } else {
      assert IdentIn(lib, sig, ident);
      IdentJoined(lib, hs, ix, i, fqcn, ident);
    }
  }

  /** A matching identifier of the signature is found through its keys. */
  lemma IdentJoined(lib: Lib, hs: seq<Handler>, ix: Index, i: nat, fqcn: string, ident: string)
    requires Ok(lib, hs, ix) && i < |hs| && !lib.alphanumeric('.')
    requires hs[i].signature.Some? && IdentIn(lib, hs[i].signature.value, ident)
    requires BareNamesMatch(ident, LastSegment(fqcn))
    ensures Joined(lib, ix, fqcn, i)
  {
    IdentKeys(lib, hs, ix, i, ident);
    NoDot(lib, hs[i].signature.value, ident);
    hide Ok, IdentIn, HasKey;
    assert LastSegment(ident) == ident && LastSegment(LastSegment(fqcn)) == LastSegment(fqcn);
  }

  lemma NoDot(lib: Lib, sig: string, ident: string)
    requires IdentIn(lib, sig, ident) && !lib.alphanumeric('.')
    ensures '.' !in ident
  {
    hide StartIn;
  }

  lemma IdentKeys(lib: Lib, hs: seq<Handler>, ix: Index, i: nat, ident: string)
    requires Ok(lib, hs, ix) && i < |hs| && hs[i].signature.Some? && IdentIn(lib, hs[i].signature.value, ident)
    ensures Under(ix.keys, "l:" + AsciiLower(ident), i) && Under(ix.keys, "n:" + Normalized(ident), i)
  {
    hide IdentIn, Normalized, IdentsOk;
    var low, norm := "l:" + AsciiLower(ident), "n:" + Normalized(ident);
    assert low in {"l:" + AsciiLower(ident), "n:" + Normalized(ident)};
    assert norm in {"l:" + AsciiLower(ident), "n:" + Normalized(ident)};
    assert HasKey(lib, hs[i], low) && HasKey(lib, hs[i], norm);
  }

  /** The four keys every handler has. */
  lemma NameKeys(lib: Lib, hs: seq<Handler>, ix: Index, i: nat)
    requires Ok(lib, hs, ix) && i < |hs|
    ensures Under(ix.keys, "f:" + hs[i].name, i)
    ensures Under(ix.keys, "l:" + AsciiLower(LastSegment(hs[i].name)), i)
    ensures Under(ix.keys, "n:" + Normalized(LastSegment(hs[i].name)), i)
    ensures Under(ix.keys, "p:" + hs[i].pascal, i)
  {
    hide IdentIn, Normalized, IdentsOk;
    assert HasKey(lib, hs[i], "f:" + hs[i].name);
    assert HasKey(lib, hs[i], "l:" + AsciiLower(LastSegment(hs[i].name)));
    assert HasKey(lib, hs[i], "n:" + Normalized(LastSegment(hs[i].name)));
    assert HasKey(lib, hs[i], "p:" + hs[i].pascal);
  }

  /** No pair the five-way predicate accepts is pruned. */
  lemma NeverPruned(lib: Lib, hs: seq<Handler>, ix: Index, i: nat, fqcn: string)
    requires Ok(lib, hs, ix) && i < |hs| && !lib.alphanumeric('.')
    requires MatchConfidence(lib, hs[i], fqcn).Some?
    ensures Joined(lib, ix, fqcn, i)
  {
    hide SignatureContains, Ok, Normalized, AsciiLower, InRun;
    var h, bare := hs[i], LastSegment(fqcn);
    NameKeys(lib, hs, ix, i);
    assert LastSegment(bare) == bare;
    if h.name != fqcn && EqIgnoreCase(h.name, bare) {
      AsciiLowerDot(h.name);
      AsciiLowerDot(bare);
      assert LastSegment(h.name) == h.name;
    } else if h.signature.Some? && SignatureContains(lib, h.signature.value, bare) {
      SignatureHitJoined(lib, hs, ix, i, fqcn);
    }
  }
}
