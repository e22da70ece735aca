/** The two-row edit distance of the fuzzy search, and what it measures. */
module EditDistance {

  function Min(a: nat, b: nat): nat {
    if a <= b then a else b
  }

  function Cost(x: char, y: char): nat {
    if x == y then 0 else 1
  }

  function Init(s: string): string
    requires s != ""
  {
    s[..|s| - 1]
  }

  function Last(s: string): char
    requires s != ""
  {
    s[|s| - 1]
  }

  function Distance(a: string, b: string): nat
    decreases |a| + |b|
  {
    if a == "" then |b|
    else if b == "" then |a|
    else
      Min(Min(Distance(Init(a), b) + 1, Distance(a, Init(b)) + 1), Distance(Init(a), Init(b)) + Cost(Last(a), Last(b)))
  }

  // ------------------------------------------------------------------ the two-row loop

  lemma {:induction false} Unfold(a: string, b: string)
    requires a != "" && b != ""
    ensures Distance(a, b)
         == Min(Min(Distance(Init(a), b) + 1, Distance(a, Init(b)) + 1),
              Distance(Init(a), Init(b)) + Cost(Last(a), Last(b)))
  {
    hide Min, Cost, Init, Last;
  }

  /** One cell of the table in terms of its three neighbours. */
  lemma {:induction false} Cell(a: string, b: string, i: nat, j: nat)
    requires 0 < i <= |a| && 0 < j <= |b|
    ensures Distance(a[..i], b[..j])
         == Min(Min(Distance(a[..i - 1], b[..j]) + 1, Distance(a[..i], b[..j - 1]) + 1),
              Distance(a[..i - 1], b[..j - 1]) + Cost(a[i - 1], b[j - 1]))
  {
    hide Distance;
    Unfold(a[..i], b[..j]);
    assert a[..i][..i - 1] == a[..i - 1] && b[..j][..j - 1] == b[..j - 1];
  }

  method Levenshtein(a: string, b: string) returns (d: nat)
    ensures d == Distance(a, b)
  {
    var n, m := |a|, |b|;
    if n == 0 {
      return m;
    }
    if m == 0 {
      return n;
    }
    hide Distance;
    var prev, cur := new nat[m + 1](j => j), new nat[m + 1](_ => 0);
    forall j | 0 <= j <= m ensures Distance(a[..0], b[..j]) == j {
      EmptyLeft(b[..j]);
    }
    for i := 1 to n + 1
      invariant RowOk(a, b, i - 1, prev[..])
    {
      Row(a, b, i, prev, cur);
      forall k | 0 <= k <= m {
        prev[k] := cur[k];
      }
      assert prev[..] == cur[..];
    }
    assert a[..n] == a && b[..m] == b;
    return prev[m];
  }

  /** The row holds the distances from the first `i` characters of `a` to each prefix of `b`. */
  ghost predicate RowOk(a: string, b: string, i: nat, row: seq<nat>)
    requires i <= |a|
  {
    |row| == |b| + 1 && forall j :: 0 <= j <= |b| ==> row[j] == Distance(a[..i], b[..j])
  }

  /** Computes one row from the row before it. */
  method Row(a: string, b: string, i: nat, prev: array<nat>, cur: array<nat>)
    requires 0 < i <= |a| && prev != cur && prev.Length == cur.Length == |b| + 1 && RowOk(a, b, i - 1, prev[..])
    modifies cur
    ensures RowOk(a, b, i, cur[..])
  {
    hide Distance, Min;
    EmptyRight(a[..i]);
    assert b[..0] == "";
    cur[0] := i;
    for j := 1 to |b| + 1
      invariant RowOk(a, b, i - 1, prev[..])
      invariant forall k :: 0 <= k < j ==> cur[k] == Distance(a[..i], b[..k])
    {
      Cell(a, b, i, j);
      assert prev[j] == prev[..][j] && prev[j - 1] == prev[..][j - 1];
      var cost := if a[i - 1] == b[j - 1] then 0 else 1;
      cur[j] := Min(Min(prev[j] + 1, cur[j - 1] + 1), prev[j - 1] + cost);
    }
  }

  lemma {:induction false} EmptyLeft(b: string)
    ensures Distance("", b) == |b|
  {
  }

  lemma {:induction false} EmptyRight(a: string)
    ensures Distance(a, "") == |a|
  {
  }

  // ------------------------------------------------------------------ a metric

  lemma {:induction false} ZeroOnlyOnEqual(a: string, b: string)
    ensures Distance(a, b) == 0 <==> a == b
    decreases |a| + |b|
  {
    if a != "" && b != "" {
      ZeroOnlyOnEqual(Init(a), Init(b));
      assert a == Init(a) + [Last(a)] && b == Init(b) + [Last(b)];
    }
  }

  lemma {:induction false} Symmetric(a: string, b: string)
    ensures Distance(a, b) == Distance(b, a)
    decreases |a| + |b|
  {
    if a != "" && b != "" {
      Symmetric(Init(a), b);
      Symmetric(a, Init(b));
      Symmetric(Init(a), Init(b));
    }
  }

  lemma {:induction false} LengthBound(a: string, b: string)
    ensures |b| <= |a| + Distance(a, b) && |a| <= |b| + Distance(a, b) && Distance(a, b) <= |a| + |b|
    decreases |a| + |b|
  {
    if a != "" && b != "" {
      LengthBound(Init(a), b);
      LengthBound(a, Init(b));
      LengthBound(Init(a), Init(b));
    }
  }

  lemma {:induction false} Step(a: string, b: string)
    requires a != "" && b != ""
    ensures Distance(a, b) <= Distance(Init(a), b) + 1 && Distance(a, b) <= Distance(a, Init(b)) + 1
    ensures Distance(a, b) <= Distance(Init(a), Init(b)) + Cost(Last(a), Last(b))
    ensures
      || Distance(a, b) == Distance(Init(a), b) + 1
      || Distance(a, b) == Distance(a, Init(b)) + 1
      || Distance(a, b) == Distance(Init(a), Init(b)) + Cost(Last(a), Last(b))
  {
  }

  lemma {:induction false} Triangle(a: string, b: string, c: string)
    ensures Distance(a, c) <= Distance(a, b) + Distance(b, c)
    decreases |a| + |b| + |c|
  {
    LengthBound(a, b);
    LengthBound(b, c);
    LengthBound(a, c);
    if a != "" && b != "" && c != "" {
      Step(a, b);
      Step(b, c);
      Step(a, c);
      Triangle(Init(a), b, c);
      Triangle(a, b, Init(c));
      Triangle(a, Init(b), c);
      Triangle(a, Init(b), Init(c));
      Triangle(Init(a), Init(b), c);
      Triangle(Init(a), Init(b), Init(c));
    }
  }

  // ------------------------------------------------------------------ the least number of edits

  /** `t` is `s` with one character inserted, deleted or replaced. */
  ghost predicate OneEdit(s: string, t: string) {
    || Inserted(s, t)
    || Inserted(t, s)
    || Substituted(s, t)
  }

  ghost predicate Substituted(s: string, t: string) {
    |s| == |t| && exists i :: 0 <= i < |s| && t == s[..i] + [t[i]] + s[i + 1..]
  }

  ghost predicate Inserted(s: string, t: string) {
    exists i :: 0 <= i <= |s| && i < |t| && t == s[..i] + [t[i]] + s[i..]
  }

  /** A sequence of texts from `a` to `b`, each one edit from the one before. */
  ghost predicate Edits(a: string, b: string, steps: seq<string>) {
    && steps != [] && steps[0] == a && steps[|steps| - 1] == b
    && forall k :: 0 <= k < |steps| - 1 ==> OneEdit(steps[k], steps[k + 1])
  }

  lemma {:induction false} Suffix(a: string, b: string, s: string)
    ensures Distance(a + s, b + s) <= Distance(a, b)
    decreases |s|
  {
    if s == "" {
      assert a + s == a && b + s == b;
    } else {
      assert Init(a + s) == a + Init(s) && Init(b + s) == b + Init(s);
      Suffix(a, b, Init(s));
    }
  }

  lemma {:induction false} OneEditBound(s: string, t: string)
    requires OneEdit(s, t)
    ensures Distance(s, t) <= 1
  {
    hide Inserted, Substituted;
    if Inserted(s, t) {
      InsertBound(s, t);
    } else if Inserted(t, s) {
      InsertBound(t, s);
      Symmetric(s, t);
    } else {
      SubstituteBound(s, t);
    }
  }

  lemma {:induction false} SubstituteBound(s: string, t: string)
    requires Substituted(s, t)
    ensures Distance(s, t) <= 1
  {
    hide Distance;
    var i :| 0 <= i < |s| && t == s[..i] + [t[i]] + s[i + 1..];
    var p, q := s[..i], s[i + 1..];
    assert s == p + [s[i]] + q;
    Suffix(p + [s[i]], p + [t[i]], q);
    assert Init(p + [s[i]]) == p && Init(p + [t[i]]) == p;
    Unfold(p + [s[i]], p + [t[i]]);
    ZeroOnlyOnEqual(p, p);
  }

  lemma {:induction false} InsertBound(s: string, t: string)
    requires Inserted(s, t)
    ensures Distance(s, t) <= 1
  {
    var i :| 0 <= i <= |s| && i < |t| && t == s[..i] + [t[i]] + s[i..];
    var p, q := s[..i], s[i..];
    assert s == p + q;
    Suffix(p, p + [t[i]], q);
    assert Init(p + [t[i]]) == p;
    ZeroOnlyOnEqual(p, p);
  }

  /** No sequence of edits is shorter than the distance. */
  lemma {:induction false} NoFewerEdits(a: string, b: string, steps: seq<string>)
    requires Edits(a, b, steps)
    ensures Distance(a, b) <= |steps| - 1
    decreases |steps|
  {
    if |steps| == 1 {
      ZeroOnlyOnEqual(a, b);
    } else {
      var init := steps[..|steps| - 1];
      var c := init[|init| - 1];
      NoFewerEdits(a, c, init);
      assert OneEdit(steps[|steps| - 2], steps[|steps| - 2 + 1]);
      OneEditBound(c, b);
      Triangle(a, c, b);
    }
  }

  /** The steps with a character appended to each. */
  function Extend(steps: seq<string>, x: char): (r: seq<string>)
    ensures |r| == |steps| && forall k :: 0 <= k < |r| ==> r[k] == steps[k] + [x]
  {
    if steps == [] then [] else Extend(steps[..|steps| - 1], x) + [steps[|steps| - 1] + [x]]
  }

  lemma {:induction false} ExtendEdits(a: string, b: string, steps: seq<string>, x: char)
    requires Edits(a, b, steps)
    ensures Edits(a + [x], b + [x], Extend(steps, x))
  {
    var r := Extend(steps, x);
    forall k | 0 <= k < |r| - 1 ensures OneEdit(r[k], r[k + 1]) {
      OneEditExtend(steps[k], steps[k + 1], x);
    }
  }

  lemma {:induction false} OneEditExtend(s: string, t: string, x: char)
    requires OneEdit(s, t)
    ensures OneEdit(s + [x], t + [x])
  {
    hide Inserted, Substituted;
    if Inserted(s, t) {
      InsertedExtend(s, t, x);
    } else if Inserted(t, s) {
      InsertedExtend(t, s, x);
    } else {
      SubstitutedExtend(s, t, x);
    }
  }

  lemma {:induction false} SubstitutedExtend(s: string, t: string, x: char)
    requires Substituted(s, t)
    ensures Substituted(s + [x], t + [x])
  {
    var i :| 0 <= i < |s| && t == s[..i] + [t[i]] + s[i + 1..];
    var s', t' := s + [x], t + [x];
    assert t' == s'[..i] + [t'[i]] + s'[i + 1..];
  }

  lemma {:induction false} InsertedExtend(s: string, t: string, x: char)
    requires Inserted(s, t)
    ensures Inserted(s + [x], t + [x])
  {
    var i :| 0 <= i <= |s| && i < |t| && t == s[..i] + [t[i]] + s[i..];
    var s', t' := s + [x], t + [x];
    assert t' == s'[..i] + [t'[i]] + s'[i..];
  }

  lemma {:induction false} Appended(s: string, x: char)
    ensures Inserted(s, s + [x])
  {
    var t := s + [x];
    assert t == s[..|s|] + [t[|s|]] + s[|s|..];
  }

  lemma {:induction false} Replaced(s: string, x: char, y: char)
    ensures OneEdit(s + [x], s + [y])
  {
    var u, t := s + [x], s + [y];
    assert t == u[..|s|] + [t[|s|]] + u[|s| + 1..];
  }

  lemma {:induction false} EditFirst(z: string, a: string, b: string, steps: seq<string>)
    requires Edits(a, b, steps) && OneEdit(z, a)
    ensures Edits(z, b, [z] + steps)
  {
    hide OneEdit;
  }

  lemma {:induction false} EditLast(a: string, b: string, c: string, steps: seq<string>)
    requires Edits(a, b, steps) && OneEdit(b, c)
    ensures Edits(a, c, steps + [c])
  {
    hide OneEdit;
  }

  lemma {:induction false} DeleteFirst(a: string, b: string, rest: seq<string>)
    requires a != "" && Edits(Init(a), b, rest)
    ensures Edits(a, b, [a] + rest)
  {
    hide Edits, Inserted;
    Appended(Init(a), Last(a));
    assert a == Init(a) + [Last(a)];
    EditFirst(a, Init(a), b, rest);
  }

  lemma {:induction false} InsertLast(a: string, b: string, rest: seq<string>)
    requires b != "" && Edits(a, Init(b), rest)
    ensures Edits(a, b, rest + [b])
  {
    hide Edits, Inserted;
    Appended(Init(b), Last(b));
    assert b == Init(b) + [Last(b)];
    EditLast(a, Init(b), b, rest);
  }

  lemma {:induction false} ReplaceLast(a: string, b: string, rest: seq<string>)
    requires a != "" && b != "" && Edits(Init(a), Init(b), rest)
    ensures
      var kept := Extend(rest, Last(a));
      Edits(a, b, if Last(a) == Last(b) then kept else kept + [b])
  {
    hide Edits, OneEdit;
    ExtendEdits(Init(a), Init(b), rest, Last(a));
    Replaced(Init(b), Last(a), Last(b));
    assert a == Init(a) + [Last(a)] && b == Init(b) + [Last(b)];
    EditLast(a, Init(b) + [Last(a)], b, Extend(rest, Last(a)));
  }

  /** Some sequence of edits is exactly as long as the distance. */
  lemma {:induction false} EnoughEdits(a: string, b: string) returns (steps: seq<string>)
    ensures Edits(a, b, steps) && |steps| == Distance(a, b) + 1
    decreases |a| + |b|, 1
  {
    EmptyLeft(b);
    EmptyRight(a);
    if a == "" && b == "" {
      steps := [""];
    } else if b == "" {
      EmptyRight(Init(a));
      var rest := EnoughEdits(Init(a), b);
      DeleteFirst(a, b, rest);
      steps := [a] + rest;
    } else if a == "" {
      EmptyLeft(Init(b));
      var rest := EnoughEdits(a, Init(b));
      InsertLast(a, b, rest);
      steps := rest + [b];
    } else {
      steps := BothNonempty(a, b);
    }
  }

  lemma {:induction false} BothNonempty(a: string, b: string) returns (steps: seq<string>)
    requires a != "" && b != ""
    ensures Edits(a, b, steps) && |steps| == Distance(a, b) + 1
    decreases |a| + |b|, 0
  {
    Step(a, b);
    hide Distance, Edits;
    if Distance(a, b) == Distance(Init(a), b) + 1 {
      var rest := EnoughEdits(Init(a), b);
      DeleteFirst(a, b, rest);
      steps := [a] + rest;
    } else if Distance(a, b) == Distance(a, Init(b)) + 1 {
      var rest := EnoughEdits(a, Init(b));
      InsertLast(a, b, rest);
      steps := rest + [b];
    } else {
      var rest := EnoughEdits(Init(a), Init(b));
      ReplaceLast(a, b, rest);
      var kept := Extend(rest, Last(a));
      steps := if Last(a) == Last(b) then kept else kept + [b];
    }
  }

  /** The distance is the least number of one-character edits. */
  lemma {:induction false} LeastEdits(a: string, b: string, n: nat)
    ensures Distance(a, b) <= n <==> exists steps :: Edits(a, b, steps) && |steps| - 1 <= n
  {
    hide Distance, Edits;
    var best := EnoughEdits(a, b);
    if steps :| Edits(a, b, steps) && |steps| - 1 <= n {
      NoFewerEdits(a, b, steps);
    }
  }
}
