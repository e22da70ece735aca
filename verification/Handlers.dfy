/** Stage 4 of `reconcile_edges`: which handler implements which RPC, and the index that prunes the pairs. */
module Handlers {
  import opened Text
  import opened GraphModel

  datatype Handler = Handler(id: Id, name: string, pascal: string, signature: Option<string>)

  // ------------------------------------------------------------------ the match predicate

  function Normalized(s: string): string {
    if s == "" then ""
    else if s[0] == '_' then Normalized(s[1..])
    else [AsciiLowerChar(s[0])] + Normalized(s[1..])
  }

  /** Equal last segments, ignoring ASCII case and, for a non-empty rest, underscores. */
  predicate BareNamesMatch(a: string, b: string) {
    var x, y := LastSegment(a), LastSegment(b);
    EqIgnoreCase(x, y) || (Normalized(x) == Normalized(y) && Normalized(x) != "")
  }

  method SkipUnderscores(s: string, from: nat) returns (i: nat)
    requires from <= |s|
    ensures from <= i <= |s| && (i < |s| ==> s[i] != '_') && Normalized(s[i..]) == Normalized(s[from..])
  {
    i := from;
    while i < |s| && s[i] == '_'
      invariant from <= i <= |s| && Normalized(s[i..]) == Normalized(s[from..])
    {
      assert s[i..][1..] == s[i + 1..];
      i := i + 1;
    }
  }

  /** The character-by-character comparison decides the predicate. */
  method MatchBareNames(a: string, b: string) returns (matched: bool)
    ensures matched == BareNamesMatch(a, b)
  {
    var x, y := LastSegment(a), LastSegment(b);
    if EqIgnoreCase(x, y) {
      return true;
    }
    matched := MatchNormalized(x, y);
  }

  method MatchNormalized(x: string, y: string) returns (matched: bool)
    ensures matched == (Normalized(x) == Normalized(y) && Normalized(x) != "")
  {
    hide Normalized;
    var i, j, nonEmpty := 0, 0, false;
    assert x[0..] == x && y[0..] == y;
    while true
      invariant 0 <= i <= |x| && 0 <= j <= |y|
      invariant Normalized(x) == Normalized(y) <==> Normalized(x[i..]) == Normalized(y[j..])
      invariant Normalized(x) == "" <==> !nonEmpty && Normalized(x[i..]) == ""
      decreases |x| - i
    {
      i := SkipUnderscores(x, i);
      j := SkipUnderscores(y, j);
      NormalizedFrom(x, i);
      NormalizedFrom(y, j);
      if i == |x| && j == |y| {
        return nonEmpty;
      }
      if i == |x| || j == |y| {
        return false;
      }
      SameCons(AsciiLowerChar(x[i]), Normalized(x[i + 1..]), AsciiLowerChar(y[j]), Normalized(y[j + 1..]));
      if AsciiLowerChar(x[i]) != AsciiLowerChar(y[j]) {
        return false;
      }
      nonEmpty, i, j := true, i + 1, j + 1;
    }
  }

  lemma NormalizedFrom(s: string, i: nat)
    requires i <= |s| && (i < |s| ==> s[i] != '_')
    ensures Normalized(s[i..]) == if i == |s| then "" else [AsciiLowerChar(s[i])] + Normalized(s[i + 1..])
  {
    if i < |s| {
      assert s[i..][1..] == s[i + 1..];
    }
  }

  lemma SameCons(c: char, u: string, d: char, v: string)
    ensures [c] + u == [d] + v <==> c == d && u == v
  {
    assert ([c] + u)[0] == c && ([d] + v)[0] == d && ([c] + u)[1..] == u && ([d] + v)[1..] == v;
  }

  const PREFIXES: seq<string> := ["@", "'", "\"", "fn ", "func ", "def "]

  lemma PrefixesNonempty()
    ensures forall p :: 0 <= p < |PREFIXES| ==> |PREFIXES[p]| > 0
  {
  }

  /** First position at or after `offset` where `prefix` occurs. */
  function Find(s: string, prefix: string, offset: nat): (r: Option<nat>)
    requires offset <= |s|
    ensures r.Some? ==> offset <= r.value && r.value + |prefix| <= |s|
    decreases |s| - offset
  {
    if prefix <= s[offset..] then Some(offset)
    else if offset == |s| then None
    else Find(s, prefix, offset + 1)
  }

  /** The positions right after each occurrence of `prefix`, as the scan visits them. */
  function Starts(s: string, prefix: string, offset: nat): (r: seq<nat>)
    requires offset <= |s| && |prefix| > 0
    ensures forall i :: 0 <= i < |r| ==> r[i] <= |s|
    decreases |s| - offset
  {
    match Find(s, prefix, offset)
    case None => []
    case Some(pos) => [pos + |prefix|] + Starts(s, prefix, pos + |prefix|)
  }

  predicate IdentChar(lib: Lib, c: char) {
    lib.alphanumeric(c) || c == '_'
  }

  /** The longest prefix made of identifier characters. */
  function Ident(lib: Lib, s: string): (r: string)
    ensures r <= s
    ensures forall i :: 0 <= i < |r| ==> IdentChar(lib, r[i])
  {
    if s == "" || !IdentChar(lib, s[0]) then "" else [s[0]] + Ident(lib, s[1..])
  }

  /** `start` follows an occurrence of one of the signature prefixes. */
  ghost predicate StartIn(sig: string, start: nat) {
    exists p :: 0 <= p < |PREFIXES| && |PREFIXES[p]| > 0 && start in Starts(sig, PREFIXES[p], 0)
  }

  predicate MatchesAt(lib: Lib, sig: string, bare: string, start: nat)
    requires start <= |sig|
  {
    bare <= sig[start..] || (Ident(lib, sig[start..]) != "" && BareNamesMatch(Ident(lib, sig[start..]), bare))
  }

  ghost predicate SignatureContains(lib: Lib, sig: string, bare: string) {
    bare != "" && exists start :: 0 <= start <= |sig| && StartIn(sig, start) && MatchesAt(lib, sig, bare, start)
  }

  /** The five-way predicate: an exact name, or one of four bare-name heuristics. */
  ghost function MatchConfidence(lib: Lib, h: Handler, fqcn: string): Option<Confidence> {
    var bare := LastSegment(fqcn);
    if h.name == fqcn then Some(Exact)
    else if EqIgnoreCase(h.name, bare) || h.pascal == bare || BareNamesMatch(h.name, bare)
            || (h.signature.Some? && SignatureContains(lib, h.signature.value, bare))
    then Some(Heuristic)
    else None
  }

  /** One prefix's scan of the signature. */
  method ScanPrefix(lib: Lib, sig: string, bare: string, prefix: string) returns (found: bool)
    requires |prefix| > 0
    ensures found
      <==> exists i :: 0 <= i < |Starts(sig, prefix, 0)| && MatchesAt(lib, sig, bare, Starts(sig, prefix, 0)[i])
  {
    hide Ident, BareNamesMatch;
    ghost var all := Starts(sig, prefix, 0);
    var offset := 0;
    ghost var n := 0;
    while true
      invariant 0 <= offset <= |sig| && 0 <= n <= |all|
      invariant all[n..] == Starts(sig, prefix, offset)
      invariant forall i :: 0 <= i < n ==> !MatchesAt(lib, sig, bare, all[i])
      decreases |sig| - offset
    {
      match Find(sig, prefix, offset)
      case None =>
        return false;
      case Some(pos) =>
        var start := pos + |prefix|;
        assert all[n..][0] == start && all[n + 1..] == all[n..][1..];
        if bare <= sig[start..] {
          assert MatchesAt(lib, sig, bare, all[n]);
          return true;
        }
        var ident := Ident(lib, sig[start..]);
        var bareMatch := MatchBareNames(ident, bare);
        if ident != "" && bareMatch {
          assert MatchesAt(lib, sig, bare, all[n]);
          return true;
        }
        offset, n := start, n + 1;
    }
  }

  method SignatureContainsBare(lib: Lib, sig: string, bare: string) returns (found: bool)
    ensures found == SignatureContains(lib, sig, bare)
  {
    hide MatchesAt, Starts;
    if bare == "" {
      return false;
    }
    PrefixesNonempty();
    for p := 0 to |PREFIXES|
      invariant forall q, i ::
        0 <= q < p && 0 <= i < |Starts(sig, PREFIXES[q], 0)| ==>
          !MatchesAt(lib, sig, bare, Starts(sig, PREFIXES[q], 0)[i])
    {
      var hit := ScanPrefix(lib, sig, bare, PREFIXES[p]);
      if hit {
        ghost var i :| 0 <= i < |Starts(sig, PREFIXES[p], 0)|
        && MatchesAt(lib, sig, bare, Starts(sig, PREFIXES[p], 0)[i]);
        assert StartIn(sig, Starts(sig, PREFIXES[p], 0)[i]);
        return true;
      }
    }
    return false;
  }

  method Judge(lib: Lib, h: Handler, fqcn: string, bare: string) returns (c: Option<Confidence>)
    requires bare == LastSegment(fqcn)
    ensures c == MatchConfidence(lib, h, fqcn)
  {
    if h.name == fqcn {
      return Some(Exact);
    }
    var bareMatch := MatchBareNames(h.name, bare);
    if EqIgnoreCase(h.name, bare) || h.pascal == bare || bareMatch {
      return Some(Heuristic);
    }
    if h.signature.Some? {
      var inSignature := SignatureContainsBare(lib, h.signature.value, bare);
      if inSignature {
        return Some(Heuristic);
      }
    }
    return None;
  }
}
