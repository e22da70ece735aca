/** Wildcard subjects: NATS (`.`, `*`, final `>`) and MQTT (`/`, `+`, final `#`). */
module Subjects {
  import opened Text

  datatype Dialect = Dialect(sep: char, one: string, rest: string)

  /** The separator picks the dialect. */
  function DialectOf(key: string): Dialect {
    if '/' in key then Dialect('/', "+", "#") else Dialect('.', "*", ">")
  }

  predicate WildcardAt(d: Dialect, tokens: seq<string>, i: nat)
    requires i < |tokens|
  {
    tokens[i] == d.one || (tokens[i] == d.rest && i == |tokens| - 1)
  }

  /** Some token of the key is a wildcard of its dialect. */
  predicate IsPattern(key: string) {
    var d := DialectOf(key);
    var tokens := Split(key, d.sep);
    exists i: nat :: i < |tokens| && WildcardAt(d, tokens, i)
  }

  /** The recursive meaning of a tokenised pattern. */
  predicate Covers(d: Dialect, p: seq<string>, t: seq<string>) {
    if p == [] then t == []
    else if p == [d.rest] then d.rest == "#" || t != []
    else t != [] && (p[0] == d.one || p[0] == t[0]) && Covers(d, p[1..], t[1..])
  }

  predicate NoEmptyToken(tokens: seq<string>) {
    forall i :: 0 <= i < |tokens| ==> tokens[i] != ""
  }

  predicate Matches(pattern: string, topic: string) {
    var d := DialectOf(pattern);
    NoEmptyToken(Split(topic, d.sep)) && Covers(d, Split(pattern, d.sep), Split(topic, d.sep))
  }

  method IsSubjectPattern(key: string) returns (found: bool)
    ensures found == IsPattern(key)
  {
    var d := DialectOf(key);
    var tokens := Split(key, d.sep);
    var i := 0;
    while i < |tokens|
      invariant 0 <= i <= |tokens|
      invariant forall k: nat :: k < i ==> !WildcardAt(d, tokens, k)
    {
      if tokens[i] == d.one || (tokens[i] == d.rest && i + 1 == |tokens|) {
        assert WildcardAt(d, tokens, i);
        return true;
      }
      i := i + 1;
    }
    return false;
  }

  method SubjectMatches(pattern: string, topic: string) returns (matched: bool)
    ensures matched == Matches(pattern, topic)
  {
    var d := DialectOf(pattern);
    var p, t := Split(pattern, d.sep), Split(topic, d.sep);
    for k := 0 to |t|
      invariant forall j :: 0 <= j < k ==> t[j] != ""
    {
      if t[k] == "" {
        return false;
      }
    }
    var i, j := 0, 0;
    while i < |p|
      invariant 0 <= i <= |p| && 0 <= j <= |t|
      invariant Covers(d, p, t) == Covers(d, p[i..], t[j..])
    {
      var tok := p[i];
      assert p[i..][1..] == p[i + 1..];
      if tok == d.rest && i + 1 == |p| {
        assert p[i..] == [d.rest];
        return d.rest == "#" || j < |t|;
      }
      assert p[i..] != [d.rest];
      if j == |t| || (tok != d.one && tok != t[j]) {
        return false;
      }
      assert t[j..][1..] == t[j + 1..];
      i, j := i + 1, j + 1;
    }
    return j == |t|;
  }

  /** Without a final multi-level wildcard, a pattern covers token by token. */
  lemma {:induction false} CoversExactly(d: Dialect, p: seq<string>, t: seq<string>)
    requires p == [] || p[|p| - 1] != d.rest
    ensures Covers(d, p, t) <==> |p| == |t| && forall i :: 0 <= i < |p| ==> p[i] == d.one || p[i] == t[i]
  {
    if p != [] && t != [] {
      CoversExactly(d, p[1..], t[1..]);
      assert forall i :: 0 <= i < |p| - 1 && i < |t| - 1 ==> p[1..][i] == p[i + 1] && t[1..][i] == t[i + 1];
    }
  }

  /** The topic has a token at this place, and the pattern's token covers it. */
  predicate Fits(d: Dialect, p: seq<string>, t: seq<string>, i: nat) {
    i < |p| && i < |t| && (p[i] == d.one || p[i] == t[i])
  }

  /** A final `#` also covers its parent level; a final `>` needs at least one more token. */
  lemma {:induction false} CoversRest(d: Dialect, p: seq<string>, t: seq<string>)
    requires p != [] && p[|p| - 1] == d.rest
    ensures Covers(d, p, t) <==> |t| >= |p| - (if d.rest == "#" then 1 else 0) && forall i: nat :: i < |p| - 1 ==>
      Fits(d, p, t, i)
  {
    if |p| > 1 {
      if t == [] {
        assert !Fits(d, p, t, 0);
      } else {
        CoversRest(d, p[1..], t[1..]);
        forall i: nat ensures Fits(d, p[1..], t[1..], i) <==> Fits(d, p, t, i + 1) {}
        if forall i: nat :: i < |p| - 1 ==> Fits(d, p, t, i) {
          assert Fits(d, p, t, 0);
          assert forall i: nat :: i < |p| - 2 ==> Fits(d, p, t, i + 1) && Fits(d, p[1..], t[1..], i);
        } else {
          var i: nat :| i < |p| - 1 && !Fits(d, p, t, i);
          assert i > 0 ==> !Fits(d, p[1..], t[1..], i - 1);
        }
      }
    }
  }

  /** A key without wildcards matches only itself. */
  lemma LiteralMatchesItself(key: string, topic: string)
    requires !IsPattern(key)
    ensures Matches(key, topic) <==> topic == key && NoEmptyToken(Split(key, DialectOf(key).sep))
  {
    var d := DialectOf(key);
    var p, t := Split(key, d.sep), Split(topic, d.sep);
    forall i: nat | i < |p| ensures p[i] != d.one && (i == |p| - 1 ==> p[i] != d.rest) {
      assert !WildcardAt(d, p, i);
    }
    CoversExactly(d, p, t);
    if Matches(key, topic) {
      assert p == t;
      JoinSplit(key, d.sep);
      JoinSplit(topic, d.sep);
    }
  }
}
