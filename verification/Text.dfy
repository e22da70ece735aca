/** String helpers shared by the models: the parts of Rust's `str` API the modelled code calls. */
module Text {

  datatype Option<+T> = None | Some(value: T)

  /** `s.ends_with(p)`; `s.starts_with(p)` is Dafny's own prefix test `p <= s`. */
  predicate EndsWith(s: string, p: string) {
    |p| <= |s| && s[|s| - |p|..] == p
  }

  /** `s.split_once(c)`: around the first `c`. */
  function SplitOnce(s: string, c: char): (r: Option<(string, string)>)
    ensures r.None? <==> c !in s
    ensures r.Some? ==> s == r.value.0 + [c] + r.value.1 && c !in r.value.0
  {
    if s == "" then None
    else if s[0] == c then Some(("", s[1..]))
    else
      match SplitOnce(s[1..], c)
      case None => None
      case Some((a, b)) => Some(([s[0]] + a, b))
  }

  /** `s.rsplit_once(c)`: around the last `c`. */
  function RSplitOnce(s: string, c: char): (r: Option<(string, string)>)
    ensures r.None? <==> c !in s
    ensures r.Some? ==> s == r.value.0 + [c] + r.value.1 && c !in r.value.1
  {
    if s == "" then None
    else if s[|s| - 1] == c then Some((s[..|s| - 1], ""))
    else
      match RSplitOnce(s[..|s| - 1], c)
      case None => None
      case Some((a, b)) => Some((a, b + [s[|s| - 1]]))
  }

  /** `s.split('.').next_back()`: what follows the last dot. */
  function LastSegment(s: string): (r: string)
    ensures '.' !in r
    ensures '.' !in s ==> r == s
  {
    match RSplitOnce(s, '.')
    case None => s
    case Some((_, b)) => b
  }

  /** `s.split(c)`: never empty, and rejoining the pieces with `c` gives `s` back. */
  function Split(s: string, c: char): (r: seq<string>)
    ensures |r| > 0
    ensures forall i :: 0 <= i < |r| ==> c !in r[i]
    decreases |s|
  {
    match SplitOnce(s, c)
    case None => [s]
    case Some((a, b)) => [a] + Split(b, c)
  }

  function Join(parts: seq<string>, c: char): string
    requires |parts| > 0
  {
    if |parts| == 1 then parts[0] else parts[0] + [c] + Join(parts[1..], c)
  }

  lemma {:induction false} JoinSplit(s: string, c: char)
    ensures Join(Split(s, c), c) == s
    decreases |s|
  {
    match SplitOnce(s, c) {
      case None =>
      case Some((a, b)) =>
        JoinSplit(b, c);
        assert Split(s, c)[1..] == Split(b, c);
    }
  }

  /** Byte-wise order of Rust's `str`, which is code-point order. */
  predicate Less(a: string, b: string) {
    if b == "" then false
    else if a == "" then true
    else a[0] < b[0] || (a[0] == b[0] && Less(a[1..], b[1..]))
  }

  lemma {:induction false} LessTotal(a: string, b: string)
    ensures Less(a, b) || a == b || Less(b, a)
    ensures !(Less(a, b) && Less(b, a))
    ensures a == b ==> !Less(a, b)
  {
    if a != "" && b != "" && a[0] == b[0] {
      LessTotal(a[1..], b[1..]);
      assert a == [a[0]] + a[1..] && b == [b[0]] + b[1..];
    }
  }

  lemma {:induction false} LessTransitive(a: string, b: string, c: string)
    requires Less(a, b) && Less(b, c)
    ensures Less(a, c)
  {
    if a != "" && a[0] == b[0] && b[0] == c[0] {
      LessTransitive(a[1..], b[1..], c[1..]);
    }
  }

  /** A non-empty set of strings has a least one. */
  lemma {:induction false} LeastString(s: set<string>) returns (m: string)
    requires s != {}
    ensures m in s && forall x :: x in s ==> !Less(x, m)
    decreases |s|
  {
    m :| m in s;
    LessTotal(m, m);
    if s != {m} {
      var r := LeastString(s - {m});
      forall x | x in s ensures !Less(x, if Less(m, r) then m else r) {
        LessTotal(x, m);
        LessTotal(m, r);
        LessTotal(x, r);
        if Less(x, m) && Less(m, r) { LessTransitive(x, m, r); }
      }
      m := if Less(m, r) then m else r;
    }
  }

  function AsciiLowerChar(c: char): char {
    if 'A' <= c <= 'Z' then (c as int - 'A' as int + 'a' as int) as char else c
  }

  /** `s.to_ascii_lowercase()`. */
  function AsciiLower(s: string): (r: string)
    ensures |r| == |s|
    ensures forall i :: 0 <= i < |s| ==> r[i] == AsciiLowerChar(s[i])
  {
    if s == "" then "" else [AsciiLowerChar(s[0])] + AsciiLower(s[1..])
  }

  /** `a.eq_ignore_ascii_case(b)`. */
  predicate EqIgnoreCase(a: string, b: string) {
    AsciiLower(a) == AsciiLower(b)
  }

  // ------------------------------------------------------------------ what the helpers compute

  /** A text ends with `p` exactly when `p` follows something. */
  lemma EndsWithMeans(s: string, p: string)
    ensures EndsWith(s, p) <==> exists a :: s == a + p
  {
    if EndsWith(s, p) {
      assert s == s[..|s| - |p|] + p;
    }
  }

  lemma {:induction false} SplitOnceAt(a: string, c: char, b: string)
    requires c !in a
    ensures SplitOnce(a + [c] + b, c) == Some((a, b))
  {
    var s := a + [c] + b;
    if a == "" {
      assert s[1..] == b;
    } else {
      assert s[1..] == a[1..] + [c] + b;
      assert c !in a[1..];
      SplitOnceAt(a[1..], c, b);
      assert [a[0]] + a[1..] == a;
    }
  }

  lemma SplitHead(a: string, c: char, b: string)
    requires c !in a
    ensures Split(a + [c] + b, c) == [a] + Split(b, c)
  {
    SplitOnceAt(a, c, b);
  }

  lemma SplitWhole(a: string, c: char)
    requires c !in a
    ensures Split(a, c) == [a]
  {
  }

  lemma {:induction false} RSplitOnceAt(a: string, c: char, b: string)
    requires c !in b
    ensures RSplitOnce(a + [c] + b, c) == Some((a, b))
  {
    var s := a + [c] + b;
    if b == "" {
      assert s == a + [c];
    } else {
      var init, last := b[..|b| - 1], b[|b| - 1];
      assert b == init + [last];
      assert c != last by { assert last in b; }
      AppendOne(a + [c], init, last);
      RSplitOnceAt(a, c, init);
    }
  }

  lemma AppendOne(a: string, b: string, c: char)
    ensures a + (b + [c]) == (a + b) + [c]
    ensures (a + (b + [c]))[..|a + b|] == a + b && (a + (b + [c]))[|a + b|] == c
  {
  }

  /** What follows the last dot, whatever stands before it. */
  lemma LastSegmentAt(a: string, b: string)
    requires '.' !in b
    ensures LastSegment(a + "." + b) == b
  {
    RSplitOnceAt(a, '.', b);
  }

  /** The last segment is the dot-free text the whole ends in, alone or after a dot. */
  lemma LastSegmentMeans(s: string, m: string)
    ensures LastSegment(s) == m <==> '.' !in m && (s == m || EndsWith(s, "." + m))
  {
    hide RSplitOnce;
    if '.' !in m && EndsWith(s, "." + m) {
      var a := s[..|s| - |m| - 1];
      assert s == a + ("." + m);
      assert s == a + "." + m;
      LastSegmentAt(a, m);
    }
    if LastSegment(s) == m && s != m {
      var (a, b) := RSplitOnce(s, '.').value;
      assert s == a + ("." + m);
    }
  }

  /** A text sorts before every longer one it begins. */
  lemma {:induction false} LessPrefix(p: string, q: string)
    requires q != ""
    ensures Less(p, p + q)
  {
    if p != "" {
      assert (p + q)[1..] == p[1..] + q;
      LessPrefix(p[1..], q);
    }
  }

  /** Otherwise the first character in which two texts differ decides. */
  lemma {:induction false} LessAt(p: string, x: char, a: string, y: char, b: string)
    requires x != y
    ensures Less(p + [x] + a, p + [y] + b) <==> x < y
  {
    if p == "" {
      assert p + [x] + a == [x] + a && p + [y] + b == [y] + b;
    } else {
      assert (p + [x] + a)[1..] == p[1..] + [x] + a && (p + [y] + b)[1..] == p[1..] + [y] + b;
      LessAt(p[1..], x, a, y, b);
    }
  }

  const UPPER := "ABCDEFGHIJKLMNOPQRSTUVWXYZ"
  const LOWER := "abcdefghijklmnopqrstuvwxyz"

  /** Letters are lowered in place in the alphabet, and nothing else changes. */
  lemma LowerLetters(c: char)
    ensures forall i :: 0 <= i < 26 ==> AsciiLowerChar(UPPER[i]) == LOWER[i]
    ensures c !in UPPER ==> AsciiLowerChar(c) == c
  {
    if 'A' <= c <= 'Z' {
      assert UPPER[(c - 'A') as int] == c;
    }
  }
}
