/** Sequence and multiset facts the models share. */
module Seqs {

  /** `ids.retain(|x| !stale.contains(x))`. */
  function Retain<T(==)>(s: seq<T>, stale: set<T>): seq<T> {
    if s == [] then []
    else if s[|s| - 1] in stale then Retain(s[..|s| - 1], stale)
    else Retain(s[..|s| - 1], stale) + [s[|s| - 1]]
  }

  lemma {:induction false} RetainMember<T>(s: seq<T>, stale: set<T>, x: T)
    ensures x in Retain(s, stale) <==> x in s && x !in stale
  {
    if s != [] {
      RetainMember(s[..|s| - 1], stale, x);
      assert s == s[..|s| - 1] + [s[|s| - 1]];
    }
  }

  lemma {:induction false} RetainAppend<T>(a: seq<T>, b: seq<T>, stale: set<T>)
    ensures Retain(a + b, stale) == Retain(a, stale) + Retain(b, stale)
  {
    if b == [] {
      assert a + b == a;
    } else {
      assert (a + b)[..|a + b| - 1] == a + b[..|b| - 1];
      RetainAppend(a, b[..|b| - 1], stale);
    }
  }

  lemma {:induction false} RetainNone<T>(s: seq<T>, stale: set<T>)
    requires forall x :: x in s ==> x !in stale
    ensures Retain(s, stale) == s
  {
    if s != [] {
      assert forall x :: x in s[..|s| - 1] ==> x in s;
      RetainNone(s[..|s| - 1], stale);
      assert s == s[..|s| - 1] + [s[|s| - 1]];
    }
  }

  lemma {:induction false} RetainAll<T>(s: seq<T>, stale: set<T>)
    requires forall i :: 0 <= i < |s| ==> s[i] in stale
    ensures Retain(s, stale) == []
  {
    if s != [] {
      RetainAll(s[..|s| - 1], stale);
    }
  }

  lemma AppendNothing<T>(s: seq<T>)
    ensures s + [] == s
  {
  }

  /** How often `x` occurs. */
  function Tally<T(==)>(s: seq<T>, x: T): nat {
    if s == [] then 0 else Tally(s[..|s| - 1], x) + if s[|s| - 1] == x then 1 else 0
  }

  lemma {:induction false} TallyMember<T>(s: seq<T>, x: T)
    ensures Tally(s, x) > 0 <==> x in s
  {
    if s != [] {
      TallyMember(s[..|s| - 1], x);
      assert s == s[..|s| - 1] + [s[|s| - 1]];
    }
  }

  lemma NoTally<T>(x: T)
    ensures Tally([], x) == 0
  {
  }

  lemma TallyPrefix<T>(s: seq<T>, i: nat, x: T)
    requires i < |s|
    ensures Tally(s[..i + 1], x) == Tally(s[..i], x) + if s[i] == x then 1 else 0
  {
    assert s[..i + 1][..i] == s[..i];
  }

  lemma {:induction false} TallyInsert<T>(s: seq<T>, i: nat, y: T, x: T)
    requires i <= |s|
    ensures Tally(s[..i] + [y] + s[i..], x) == Tally(s, x) + if x == y then 1 else 0
    decreases |s|
  {
    var all := s[..i] + [y] + s[i..];
    if i == |s| {
      assert all[..|all| - 1] == s;
    } else {
      var init := s[..|s| - 1];
      assert all[..|all| - 1] == init[..i] + [y] + init[i..];
      TallyInsert(init, i, y, x);
    }
  }

  lemma {:induction false} TallyIsMultiplicity<T>(s: seq<T>, x: T)
    ensures Tally(s, x) == multiset(s)[x]
  {
    if s != [] {
      TallyIsMultiplicity(s[..|s| - 1], x);
      assert s == s[..|s| - 1] + [s[|s| - 1]];
    }
  }

  lemma {:induction false} TallyRetain<T>(s: seq<T>, stale: set<T>, x: T)
    requires x !in stale
    ensures Tally(Retain(s, stale), x) == Tally(s, x)
  {
    if s != [] {
      TallyRetain(s[..|s| - 1], stale, x);
      var rest := Retain(s[..|s| - 1], stale);
      assert (rest + [s[|s| - 1]])[..|rest|] == rest;
    }
  }

  /** The image of a sequence under a finite map. */
  function Image<A(==), B>(f: map<A, B>, s: seq<A>): (r: seq<B>)
    requires forall j :: 0 <= j < |s| ==> s[j] in f
    ensures |r| == |s|
    ensures forall i :: 0 <= i < |s| ==> r[i] == f[s[i]]
  {
    if s == [] then [] else Image(f, s[..|s| - 1]) + [f[s[|s| - 1]]]
  }

  lemma ImageRemove<A, B>(f: map<A, B>, s: seq<A>, i: nat)
    requires i < |s|
    requires forall j :: 0 <= j < |s| ==> s[j] in f
    ensures multiset(Image(f, s)) == multiset(Image(f, Without(s, i))) + multiset{f[s[i]]}
  {
    assert Image(f, Without(s, i)) == Without(Image(f, s), i);
  }

  function Without<A>(s: seq<A>, i: nat): (r: seq<A>)
    requires i < |s|
    ensures multiset(s) == multiset(r) + multiset{s[i]}
    ensures |r| == |s| - 1
    ensures forall j :: 0 <= j < |r| ==> r[j] == s[if j < i then j else j + 1]
  {
    assert s == s[..i] + [s[i]] + s[i + 1..];
    s[..i] + s[i + 1..]
  }

  lemma Cancel<A>(m: multiset<A>, n: multiset<A>, x: A)
    requires m + multiset{x} == n + multiset{x}
    ensures m == n
  {
    assert m == (m + multiset{x}) - multiset{x};
    assert n == (n + multiset{x}) - multiset{x};
  }

  /** Permuting a sequence permutes its image. */
  lemma {:induction false} ImagePermutation<A, B>(f: map<A, B>, a: seq<A>, b: seq<A>)
    requires multiset(a) == multiset(b)
    requires forall i :: 0 <= i < |a| ==> a[i] in f
    requires forall i :: 0 <= i < |b| ==> b[i] in f
    ensures multiset(Image(f, a)) == multiset(Image(f, b))
    decreases |a|
  {
    if a == [] {
      assert |multiset(b)| == 0;
    } else {
      assert a[0] in multiset(b);
      var i :| 0 <= i < |b| && b[i] == a[0];
      var a', b' := Without(a, 0), Without(b, i);
      Cancel(multiset(a'), multiset(b'), a[0]);
      ImagePermutation(f, a', b');
      assert multiset(Image(f, a)) == multiset(Image(f, a')) + multiset{f[a[0]]} by { ImageRemove(f, a, 0); }
      assert multiset(Image(f, b)) == multiset(Image(f, b')) + multiset{f[a[0]]} by { ImageRemove(f, b, i); }
    }
  }

  /** A sequence without repeats holds its set's elements once each. */
  predicate NoDup<T(==)>(s: seq<T>) {
    forall i, j :: 0 <= i < j < |s| ==> s[i] != s[j]
  }

  lemma {:induction false} NoDupMultiset<T>(s: seq<T>)
    requires NoDup(s)
    ensures multiset(s) == multiset(set x | x in s)
  {
    if s != [] {
      var last := |s| - 1;
      NoDupMultiset(s[..last]);
      assert s == s[..last] + [s[last]];
      assert (set x | x in s) == (set x | x in s[..last]) + {s[last]};
    }
  }

  /** Two repeat-free sequences of the same elements are permutations of each other. */
  lemma SameElements<T>(a: seq<T>, b: seq<T>)
    requires NoDup(a) && NoDup(b)
    requires forall x :: x in a <==> x in b
    ensures multiset(a) == multiset(b)
  {
    NoDupMultiset(a);
    NoDupMultiset(b);
    assert (set x | x in a) == (set x | x in b);
  }
}
