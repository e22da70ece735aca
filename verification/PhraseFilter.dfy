/** The filter of listed phrases in documentation text. */
module PhraseFilter {
  import opened Text

  const REPLACEMENT := "[FILTERED_ADVERSARIAL_INPUT]"

  const PHRASES: seq<string> := [
    "<|im_start|>", "<|im_end|>", "<|system|>", "<|assistant|>", "<|user|>", "<system>", "</system>", "[system]",
      "[assistant]",
    "ignore previous instructions", "ignore all previous instructions", "disregard prior guidelines",
      "bypass safety checks",
    "output system prompt", "override authorization"]

  /** The phrase stands at position `i`, in any letter case. */
  ghost predicate OccursAt(text: string, p: string, i: nat) {
    i + |p| <= |text| && forall k :: 0 <= k < |p| ==> AsciiLowerChar(text[i + k]) == p[k]
  }

  ghost predicate Clean(text: string) {
    forall n, i: nat :: 0 <= n < |PHRASES| ==> !OccursAt(text, PHRASES[n], i)
  }

  // ------------------------------------------------------------------ finding

  method StandsAt(text: string, p: string, i: nat) returns (b: bool)
    requires i + |p| <= |text|
    ensures b == OccursAt(text, p, i)
  {
    for k := 0 to |p|
      invariant forall j :: 0 <= j < k ==> AsciiLowerChar(text[i + j]) == p[j]
    {
      if AsciiLowerChar(text[i + k]) != p[k] {
        return false;
      }
    }
    return true;
  }

  /** Some listed position is at or before `i` and its occurrence reaches past `i`. */
  ghost predicate Reached(r: seq<nat>, width: nat, i: nat) {
    exists k :: 0 <= k < |r| && r[k] <= i < r[k] + width
  }

  /**
   * The occurrences of one phrase, scanned left to right without overlaps: every occurrence starts inside a listed one.
   */
  method MatchIndices(text: string, needle: string) returns (r: seq<nat>)
    requires needle != ""
    ensures forall k :: 0 <= k < |r| ==> OccursAt(text, needle, r[k])
    ensures forall k :: 0 <= k < |r| - 1 ==> r[k] + |needle| <= r[k + 1]
    ensures forall i: nat :: OccursAt(text, needle, i) ==> Reached(r, |needle|, i)
  {
    hide OccursAt, Reached;
    r := [];
    var pos := 0;
    while pos + |needle| <= |text|
      invariant forall k :: 0 <= k < |r| ==> OccursAt(text, needle, r[k]) && r[k] + |needle| <= pos
      invariant forall k :: 0 <= k < |r| - 1 ==> r[k] + |needle| <= r[k + 1]
      invariant forall i: nat :: i < pos && OccursAt(text, needle, i) ==> Reached(r, |needle|, i)
    {
      var at := pos;
      var hit := StandsAt(text, needle, at);
      if hit {
        ghost var before := r;
        r := r + [at];
        pos := at + |needle|;
        forall i: nat | i < pos && (i < at ==> Reached(before, |needle|, i)) ensures Reached(r, |needle|, i) {
          ReachedMore(before, at, |needle|, i);
        }
      } else {
        pos := pos + 1;
      }
    }
    forall i: nat | OccursAt(text, needle, i) ensures i + |needle| <= |text| {
      Fits(text, needle, i);
    }
  }

  lemma ReachedMore(r: seq<nat>, at: nat, width: nat, i: nat)
    requires Reached(r, width, i) || at <= i < at + width
    ensures Reached(r + [at], width, i)
  {
    if Reached(r, width, i) {
      var k :| 0 <= k < |r| && r[k] <= i < r[k] + width;
      assert (r + [at])[k] == r[k];
    } else {
      assert (r + [at])[|r|] == at;
    }
  }

  lemma Fits(text: string, p: string, i: nat)
    requires OccursAt(text, p, i)
    ensures i + |p| <= |text|
  {
  }

  /** The phrase cannot overlap a shifted copy of itself. */
  ghost predicate Borderless(p: string) {
    forall d :: 0 < d < |p| ==> Differs(p, d)
  }

  ghost predicate Differs(p: string, d: int) {
    exists i :: 0 <= i < |p| && 0 <= i + d < |p| && p[i] != p[i + d]
  }

  /** Then an overlapping scan would find nothing more. */
  lemma NoOverlap(text: string, p: string, i: nat, j: nat)
    requires Borderless(p) && OccursAt(text, p, i) && OccursAt(text, p, j) && j <= i < j + |p|
    ensures i == j
  {
    assert i != j ==> Differs(p, i - j);
    assert forall k :: 0 <= k < |p| && 0 <= k + (i - j) < |p| ==>
      AsciiLowerChar(text[i + k]) == p[k] && text[i + k] == text[j + (k + (i - j))];
  }

  // ------------------------------------------------------------------ the listed phrases

  /** No occurrence of the phrase can share a position with the filler text. */
  ghost predicate Isolated(p: string, filler: string) {
    forall d :: -|p| < d < |filler| ==> Clashes(p, filler, d)
  }

  ghost predicate Clashes(p: string, filler: string, d: int) {
    exists i :: 0 <= i < |p| && 0 <= i + d < |filler| && p[i] != AsciiLowerChar(filler[i + d])
  }

  /**
   * Brackets only at the ends and not spelled like the replacement's, a character the replacement lacks, and no repeat
   * of the first two characters.
   */
  ghost predicate Plain(p: string) {
    && 3 <= |p|
    && (forall i :: 0 < i < |p| ==> p[i] != '[')
    && (p[0] == '[' ==> p[1] != 'f')
    && (forall i :: 0 <= i < |p| - 1 ==> p[i] != ']')
    && (p[|p| - 1] == ']' ==> p[|p| - 3] != 'u')
    && (exists i :: 0 <= i < |p| && (p[i] == '<' || p[i] == ' ' || p[i] == '['))
    && StartsOnce(p)
  }

  ghost predicate StartsOnce(p: string) {
    2 <= |p| && forall k :: 0 < k < |p| && p[k] == p[0] ==> k + 1 < |p| && p[k + 1] != p[1]
  }

  lemma PlainIsBorderless(p: string)
    requires Plain(p)
    ensures Borderless(p)
  {
    forall d | 0 < d < |p| ensures Differs(p, d) {
      if p[d] == p[0] {
        assert p[1] != p[1 + d];
      } else {
        assert p[0] != p[0 + d];
      }
    }
  }

  /** What about the filler text keeps phrases apart from it. */
  ghost predicate FillerText(r: string) {
    && |r| == 28 && r[0] == '[' && r[1] == 'F' && r[25] == 'U' && r[27] == ']'
    && forall j :: 0 < j < 28 ==> r[j] != '[' && r[j] != '<' && r[j] != ' '
  }

  lemma ReplacementIsFiller()
    ensures FillerText(REPLACEMENT)
  {
  }

  lemma PlainIsIsolated(p: string, r: string)
    requires Plain(p) && FillerText(r)
    ensures Isolated(p, r)
  {
    forall d | -|p| < d < |r| ensures Clashes(p, r, d) {
      MismatchAt(p, r, d);
    }
  }

  lemma MismatchAt(p: string, r: string, d: int)
    requires Plain(p) && FillerText(r) && -|p| < d < |r|
    ensures Clashes(p, r, d)
  {
    if d < 0 {
      assert p[-d] != AsciiLowerChar(r[-d + d]);
    } else if d == 0 {
      assert p[0] != AsciiLowerChar(r[0 + d]) || p[1] != AsciiLowerChar(r[1 + d]);
    } else if d + |p| < 28 {
      var w :| 0 <= w < |p| && (p[w] == '<' || p[w] == ' ' || p[w] == '[');
      assert p[w] != AsciiLowerChar(r[w + d]);
    } else {
      assert p[27 - d] != AsciiLowerChar(r[27 - d + d]) || p[25 - d] != AsciiLowerChar(r[25 - d + d]);
    }
  }

  lemma ImStart()
    ensures Plain("<|im_start|>")
  {
    assert "<|im_start|>"[0] == '<';
  }

  lemma ImEnd()
    ensures Plain("<|im_end|>")
  {
    assert "<|im_end|>"[0] == '<';
  }

  lemma PipedSystem()
    ensures Plain("<|system|>")
  {
    assert "<|system|>"[0] == '<';
  }

  lemma PipedAssistant()
    ensures Plain("<|assistant|>")
  {
    assert "<|assistant|>"[0] == '<';
  }

  lemma PipedUser()
    ensures Plain("<|user|>")
  {
    assert "<|user|>"[0] == '<';
  }

  lemma System()
    ensures Plain("<system>")
  {
    assert "<system>"[0] == '<';
  }

  lemma SystemEnd()
    ensures Plain("</system>")
  {
    assert "</system>"[0] == '<';
  }

  lemma BracketSystem()
    ensures Plain("[system]")
  {
    assert "[system]"[0] == '[';
  }

  lemma BracketAssistant()
    ensures Plain("[assistant]")
  {
    assert "[assistant]"[0] == '[';
  }

  lemma IgnorePrevious()
    ensures Plain("ignore previous instructions")
  {
    assert "ignore previous instructions"[6] == ' ';
  }

  lemma IgnoreAllStart()
    ensures StartsOnce("ignore all previous instructions")
  {
  }

  lemma IgnoreAll()
    ensures Plain("ignore all previous instructions")
  {
    hide StartsOnce;
    IgnoreAllStart();
    assert "ignore all previous instructions"[6] == ' ';
  }

  lemma Disregard()
    ensures Plain("disregard prior guidelines")
  {
    assert "disregard prior guidelines"[9] == ' ';
  }

  lemma Bypass()
    ensures Plain("bypass safety checks")
  {
    assert "bypass safety checks"[6] == ' ';
  }

  lemma Output()
    ensures Plain("output system prompt")
  {
    assert "output system prompt"[6] == ' ';
  }

  lemma Override()
    ensures Plain("override authorization")
  {
    assert "override authorization"[8] == ' ';
  }

  lemma PhrasesPlain(n: nat)
    requires n < |PHRASES|
    ensures Plain(PHRASES[n]) && Borderless(PHRASES[n]) && Isolated(PHRASES[n], REPLACEMENT)
  {
    hide Plain, Borderless, Isolated, FillerText;
    ReplacementIsFiller();
    if n == 0 { ImStart(); }
    if n == 1 { ImEnd(); }
    if n == 2 { PipedSystem(); }
    if n == 3 { PipedAssistant(); }
    if n == 4 { PipedUser(); }
    if n == 5 { System(); }
    if n == 6 { SystemEnd(); }
    if n == 7 { BracketSystem(); }
    if n == 8 { BracketAssistant(); }
    if n == 9 { IgnorePrevious(); }
    if n == 10 { IgnoreAll(); }
    if n == 11 { Disregard(); }
    if n == 12 { Bypass(); }
    if n == 13 { Output(); }
    if n == 14 { Override(); }
    PlainIsBorderless(PHRASES[n]);
    PlainIsIsolated(PHRASES[n], REPLACEMENT);
  }

  // ------------------------------------------------------------------ cutting

  type Cut = (nat, nat)

  ghost predicate Ordered(cuts: seq<Cut>, n: nat) {
    && (forall i :: 0 <= i < |cuts| ==> cuts[i].0 < cuts[i].1 <= n)
    && forall i :: 0 <= i < |cuts| - 1 ==> cuts[i].1 <= cuts[i + 1].0
  }

  function End(cuts: seq<Cut>): nat {
    if cuts == [] then 0 else cuts[|cuts| - 1].1
  }

  /** The text up to the end of the last cut, each cut replaced by the filler. */
  function Upto(text: string, filler: string, cuts: seq<Cut>): string
    requires Ordered(cuts, |text|)
  {
    if cuts == [] then ""
    else
      var init := cuts[..|cuts| - 1];
      OrderedInit(cuts, |text|);
      Upto(text, filler, init) + text[End(init)..cuts[|cuts| - 1].0] + filler
  }

  function Spliced(text: string, filler: string, cuts: seq<Cut>): string
    requires Ordered(cuts, |text|)
  {
    EndInside(cuts, |text|);
    Upto(text, filler, cuts) + text[End(cuts)..]
  }

  lemma EndInside(cuts: seq<Cut>, n: nat)
    requires Ordered(cuts, n)
    ensures End(cuts) <= n
  {
  }

  lemma OrderedInit(cuts: seq<Cut>, n: nat)
    requires Ordered(cuts, n) && cuts != []
    ensures Ordered(cuts[..|cuts| - 1], n) && End(cuts[..|cuts| - 1]) <= cuts[|cuts| - 1].0 < cuts[|cuts| - 1].1 <= n
  {
    var init := cuts[..|cuts| - 1];
    assert forall i :: 0 <= i < |init| ==> init[i] == cuts[i];
    if init != [] {
      assert cuts[|cuts| - 2].1 <= cuts[|cuts| - 2 + 1].0;
    }
  }

  /** Where an output character came from: a position of the text, or of a copy of the filler. */
  datatype Tag = Kept(at: nat) | Filled(at: nat)

  function KeptRange(a: nat, b: nat): (r: seq<Tag>)
    requires a <= b
    ensures |r| == b - a && forall i :: 0 <= i < |r| ==> r[i] == Kept(a + i)
  {
    if a == b then [] else KeptRange(a, b - 1) + [Kept(b - 1)]
  }

  function FilledRange(n: nat): (r: seq<Tag>)
    ensures |r| == n && forall i :: 0 <= i < |r| ==> r[i] == Filled(i)
  {
    if n == 0 then [] else FilledRange(n - 1) + [Filled(n - 1)]
  }

  function Tags(text: string, filler: string, cuts: seq<Cut>): seq<Tag>
    requires Ordered(cuts, |text|)
  {
    if cuts == [] then []
    else
      var init := cuts[..|cuts| - 1];
      OrderedInit(cuts, |text|);
      Tags(text, filler, init) + KeptRange(End(init), cuts[|cuts| - 1].0) + FilledRange(|filler|)
  }

  ghost predicate Uncut(cuts: seq<Cut>, i: nat) {
    forall k :: 0 <= k < |cuts| ==> !(cuts[k].0 <= i < cuts[k].1)
  }

  /** The tags spell the output, kept positions are outside every cut, and copies of the filler are whole. */
  ghost predicate Tagged(text: string, filler: string, cuts: seq<Cut>, tags: seq<Tag>, out: string) {
    && |tags| == |out|
    && (forall q :: 0 <= q < |tags| ==> Spells(text, filler, cuts, tags[q], out[q]))
    && (forall q :: 0 <= q < |tags| - 1 ==> Follows(|filler|, tags[q], tags[q + 1]))
  }

  ghost predicate Spells(text: string, filler: string, cuts: seq<Cut>, tag: Tag, c: char) {
    match tag
    case Kept(i) => i < |text| && c == text[i] && Uncut(cuts, i)
    case Filled(j) => j < |filler| && c == filler[j]
  }

  predicate Follows(n: nat, a: Tag, b: Tag) {
    match b
    case Kept(i) => if a.Kept? then i == a.at + 1 else a.at == n - 1
    case Filled(j) => if j == 0 then (a.Filled? ==> a.at == n - 1) else a == Filled(j - 1)
  }

  lemma TaggedAppend(text: string, filler: string, cuts: seq<Cut>, t1: seq<Tag>, o1: string, t2: seq<Tag>, o2: string)
    requires Tagged(text, filler, cuts, t1, o1) && Tagged(text, filler, cuts, t2, o2)
    requires t1 != [] && t2 != [] ==> Follows(|filler|, t1[|t1| - 1], t2[0])
    ensures Tagged(text, filler, cuts, t1 + t2, o1 + o2)
  {
    hide Spells, Follows;
  }

  lemma TaggedKept(text: string, filler: string, cuts: seq<Cut>, a: nat, b: nat)
    requires a <= b <= |text| && forall i :: a <= i < b ==> Uncut(cuts, i)
    ensures Tagged(text, filler, cuts, KeptRange(a, b), text[a..b])
  {
    hide Uncut;
    assert forall q :: 0 <= q < b - a ==> text[a..b][q] == text[a + q];
  }

  lemma TaggedFilled(text: string, filler: string, cuts: seq<Cut>)
    ensures Tagged(text, filler, cuts, FilledRange(|filler|), filler)
  {
    hide Uncut;
  }

  /** Before the first cut of `rest`, after the last of `done`: outside every cut. */
  lemma GapUncut(cuts: seq<Cut>, n: nat, m: nat, i: nat)
    requires Ordered(cuts, n) && m <= |cuts| && End(cuts[..m]) <= i && (m < |cuts| ==> i < cuts[m].0)
    ensures Uncut(cuts, i)
  {
    forall k | 0 <= k < |cuts| ensures !(cuts[k].0 <= i < cuts[k].1) {
      if k < m {
        EndsRise(cuts, n, k, m - 1);
      } else {
        StartsRise(cuts, n, m, k);
      }
    }
  }

  lemma {:induction false} EndsRise(cuts: seq<Cut>, n: nat, i: nat, j: nat)
    requires Ordered(cuts, n) && i <= j < |cuts|
    ensures cuts[i].1 <= cuts[j].1
    decreases j - i
  {
    if i < j {
      EndsRise(cuts, n, i, j - 1);
      assert cuts[j - 1].1 <= cuts[j - 1 + 1].0;
    }
  }

  lemma {:induction false} StartsRise(cuts: seq<Cut>, n: nat, i: nat, j: nat)
    requires Ordered(cuts, n) && i <= j < |cuts|
    ensures cuts[i].0 <= cuts[j].0
    decreases j - i
  {
    if i < j {
      StartsRise(cuts, n, i, j - 1);
      assert cuts[j - 1].1 <= cuts[j - 1 + 1].0;
    }
  }

  lemma OrderedPrefix(cuts: seq<Cut>, n: nat, m: nat)
    requires Ordered(cuts, n) && m <= |cuts|
    ensures Ordered(cuts[..m], n)
  {
  }

  ghost predicate EndsFilled(filler: string, tags: seq<Tag>) {
    tags != [] && tags[|tags| - 1].Filled? && tags[|tags| - 1].at == |filler| - 1
  }

  /** A copy of the filler may follow. */
  ghost predicate Open(filler: string, tags: seq<Tag>) {
    tags != [] ==> tags[|tags| - 1].Kept? || tags[|tags| - 1].at == |filler| - 1
  }

  lemma OneMoreGap(text: string, filler: string, cuts: seq<Cut>, t: seq<Tag>, o: string, a: nat, b: nat)
    requires Tagged(text, filler, cuts, t, o) && (t != [] ==> EndsFilled(filler, t))
    requires a <= b <= |text| && forall i: nat :: a <= i < b ==> Uncut(cuts, i)
    ensures Tagged(text, filler, cuts, t + KeptRange(a, b), o + text[a..b]) && Open(filler, t + KeptRange(a, b))
  {
    hide Tagged, Uncut, KeptRange;
    TaggedKept(text, filler, cuts, a, b);
    TaggedAppend(text, filler, cuts, t, o, KeptRange(a, b), text[a..b]);
    var all := t + KeptRange(a, b);
    if a < b {
      assert all[|all| - 1] == Kept(b - 1);
    } else {
      assert all == t;
    }
  }

  lemma OneMoreFiller(text: string, filler: string, cuts: seq<Cut>, t: seq<Tag>, o: string)
    requires Tagged(text, filler, cuts, t, o) && Open(filler, t) && filler != ""
    ensures Tagged(text, filler, cuts, t + FilledRange(|filler|), o + filler)
    ensures EndsFilled(filler, t + FilledRange(|filler|))
  {
    hide Tagged, FilledRange;
    TaggedFilled(text, filler, cuts);
    TaggedAppend(text, filler, cuts, t, o, FilledRange(|filler|), filler);
  }

  lemma {:induction false} UptoTagged(text: string, filler: string, cuts: seq<Cut>, m: nat)
    requires Ordered(cuts, |text|) && m <= |cuts| && filler != ""
    ensures Ordered(cuts[..m], |text|)
    ensures Tagged(text, filler, cuts, Tags(text, filler, cuts[..m]), Upto(text, filler, cuts[..m]))
    ensures Tags(text, filler, cuts[..m]) != [] ==> EndsFilled(filler, Tags(text, filler, cuts[..m]))
  {
    OrderedPrefix(cuts, |text|, m);
    if m == 0 {
      NothingTagged(text, filler, cuts);
      assert cuts[..0] == [];
    } else {
      UptoTagged(text, filler, cuts, m - 1);
      var done, last := cuts[..m - 1], cuts[m - 1];
      UptoStep(text, filler, cuts, m);
      forall i: nat | End(done) <= i < last.0 ensures Uncut(cuts, i) {
        GapUncut(cuts, |text|, m - 1, i);
      }
      hide Tagged, Ordered, Uncut, EndsFilled, Open, Tags, Upto, End, KeptRange, FilledRange;
      var t, o := Tags(text, filler, done), Upto(text, filler, done);
      OneMoreGap(text, filler, cuts, t, o, End(done), last.0);
      OneMoreFiller(text, filler, cuts, t + KeptRange(End(done), last.0), o + text[End(done)..last.0]);
    }
  }

  lemma NothingTagged(text: string, filler: string, cuts: seq<Cut>)
    ensures Tagged(text, filler, cuts, [], "")
  {
  }

  lemma UptoStep(text: string, filler: string, cuts: seq<Cut>, m: nat)
    requires Ordered(cuts, |text|) && 0 < m <= |cuts| && Ordered(cuts[..m], |text|) && Ordered(cuts[..m - 1], |text|)
    ensures End(cuts[..m - 1]) <= cuts[m - 1].0 <= |text|
    ensures Tags(text, filler, cuts[..m])
      == Tags(text, filler, cuts[..m - 1]) + KeptRange(End(cuts[..m - 1]), cuts[m - 1].0) + FilledRange(|filler|)
    ensures Upto(text, filler, cuts[..m])
      == Upto(text, filler, cuts[..m - 1]) + text[End(cuts[..m - 1])..cuts[m - 1].0] + filler
  {
    hide Ordered, KeptRange, FilledRange;
    assert cuts[..m][..m - 1] == cuts[..m - 1];
    OrderedInit(cuts[..m], |text|);
  }

  /** Every character of the output is accounted for. */
  lemma SplicedTagged(text: string, filler: string, cuts: seq<Cut>) returns (tags: seq<Tag>)
    requires Ordered(cuts, |text|) && filler != ""
    ensures Tagged(text, filler, cuts, tags, Spliced(text, filler, cuts))
  {
    assert cuts[..|cuts|] == cuts;
    UptoTagged(text, filler, cuts, |cuts|);
    EndInside(cuts, |text|);
    forall i: nat | End(cuts) <= i < |text| ensures Uncut(cuts, i) {
      GapUncut(cuts, |text|, |cuts|, i);
    }
    hide Tagged, Uncut;
    var t, k := Tags(text, filler, cuts), KeptRange(End(cuts), |text|);
    TaggedKept(text, filler, cuts, End(cuts), |text|);
    assert text[End(cuts)..|text|] == text[End(cuts)..];
    TaggedAppend(text, filler, cuts, t, Upto(text, filler, cuts), k, text[End(cuts)..]);
    tags := t + k;
  }

  /** Next to a filler character, the rest of that copy of the filler stands in its place. */
  lemma {:induction false} FilledRight(text: string, filler: string, cuts: seq<Cut>, tags: seq<Tag>, out: string,
        q: nat, n: nat)
    requires Tagged(text, filler, cuts, tags, out) && q + n < |tags| && tags[q].Filled? && tags[q].at + n < |filler|
    ensures tags[q + n] == Filled(tags[q].at + n)
  {
    if n > 0 {
      FilledRight(text, filler, cuts, tags, out, q, n - 1);
      assert Follows(|filler|, tags[q + n - 1], tags[q + n - 1 + 1]);
      assert Spells(text, filler, cuts, tags[q + n], out[q + n]);
    }
  }

  lemma {:induction false} FilledLeft(text: string, filler: string, cuts: seq<Cut>, tags: seq<Tag>, out: string, q: nat,
        n: nat)
    requires Tagged(text, filler, cuts, tags, out) && n <= q < |tags| && tags[q].Filled? && n <= tags[q].at
    ensures tags[q - n] == Filled(tags[q].at - n)
  {
    if n > 0 {
      FilledLeft(text, filler, cuts, tags, out, q, n - 1);
      assert Follows(|filler|, tags[q - n], tags[q - n + 1]);
    }
  }

  lemma {:induction false} KeptRight(text: string, filler: string, cuts: seq<Cut>, tags: seq<Tag>, out: string, q: nat,
        r: nat)
    requires Tagged(text, filler, cuts, tags, out) && q <= r < |tags| && forall k :: q <= k <= r ==> tags[k].Kept?
    ensures tags[r] == Kept(tags[q].at + (r - q))
    decreases r
  {
    if q < r {
      KeptRight(text, filler, cuts, tags, out, q, r - 1);
      assert Follows(|filler|, tags[r - 1], tags[r - 1 + 1]);
    }
  }

  /** An isolated phrase cannot stand over a filler character. */
  lemma FillerBreaks(text: string, filler: string, cuts: seq<Cut>, tags: seq<Tag>, out: string, p: string, q: nat,
        k: nat)
    requires Tagged(text, filler, cuts, tags, out) && Isolated(p, filler) && q + |p| <= |out| && k < |p|
    requires tags[q + k].Filled?
    ensures !OccursAt(out, p, q)
  {
    assert Spells(text, filler, cuts, tags[q + k], out[q + k]);
    var d := tags[q + k].at - k;
    assert Clashes(p, filler, d);
    var i :| 0 <= i < |p| && 0 <= i + d < |filler| && p[i] != AsciiLowerChar(filler[i + d]);
    if i >= k {
      FilledRight(text, filler, cuts, tags, out, q + k, i - k);
    } else {
      FilledLeft(text, filler, cuts, tags, out, q + k, k - i);
    }
    assert Spells(text, filler, cuts, tags[q + i], out[q + i]);
    assert AsciiLowerChar(out[q + i]) != p[i];
  }

  /** A phrase standing over kept characters only stands in the text, outside every cut. */
  lemma KeptStands(text: string, filler: string, cuts: seq<Cut>, tags: seq<Tag>, out: string, p: string, q: nat)
    requires Tagged(text, filler, cuts, tags, out) && p != "" && q + |p| <= |out|
    requires forall k :: q <= k < q + |p| ==> tags[k].Kept?
    ensures Uncut(cuts, tags[q].at) && (OccursAt(out, p, q) ==> OccursAt(text, p, tags[q].at))
  {
    var i := tags[q].at;
    assert Spells(text, filler, cuts, tags[q], out[q]);
    if OccursAt(out, p, q) {
      KeptCharacter(text, filler, cuts, tags, out, q, q + |p| - 1);
      forall k | 0 <= k < |p| ensures AsciiLowerChar(text[i + k]) == p[k] {
        KeptCharacter(text, filler, cuts, tags, out, q, q + k);
      }
    }
  }

  lemma KeptCharacter(text: string, filler: string, cuts: seq<Cut>, tags: seq<Tag>, out: string, q: nat, r: nat)
    requires Tagged(text, filler, cuts, tags, out) && q <= r < |tags| && forall k :: q <= k <= r ==> tags[k].Kept?
    ensures
      var at := tags[q].at + (r - q);
      at < |text| && text[at] == out[r]
  {
    KeptRight(text, filler, cuts, tags, out, q, r);
    assert Spells(text, filler, cuts, tags[r], out[r]);
  }

  /** Cutting at every occurrence leaves none: not in what is kept, not across a replacement. */
  lemma NothingLeft(text: string, filler: string, cuts: seq<Cut>, p: string, q: nat)
    requires Ordered(cuts, |text|) && filler != "" && p != "" && Isolated(p, filler)
    requires forall i: nat :: OccursAt(text, p, i) ==> !Uncut(cuts, i)
    ensures !OccursAt(Spliced(text, filler, cuts), p, q)
  {
    hide Tagged, Uncut, Isolated, Spliced, Ordered;
    var out := Spliced(text, filler, cuts);
    var tags := SplicedTagged(text, filler, cuts);
    TagPerCharacter(text, filler, cuts, tags, out);
    if q + |p| <= |out| {
      if k :| q <= k < q + |p| && tags[k].Filled? {
        FillerBreaks(text, filler, cuts, tags, out, p, q, k - q);
      } else {
        KeptStands(text, filler, cuts, tags, out, p, q);
      }
    }
  }

  lemma TagPerCharacter(text: string, filler: string, cuts: seq<Cut>, tags: seq<Tag>, out: string)
    requires Tagged(text, filler, cuts, tags, out)
    ensures |tags| == |out|
  {
  }

  // ------------------------------------------------------------------ the operation

  /** A hit: a listed phrase stands at its first position, and ends before its second. */
  ghost predicate IsHit(text: string, h: Cut) {
    exists n :: 0 <= n < |PHRASES| && OccursAt(text, PHRASES[n], h.0) && h.1 == h.0 + |PHRASES[n]|
  }

  predicate Before(a: Cut, b: Cut) {
    a.0 < b.0 || (a.0 == b.0 && a.1 <= b.1)
  }

  ghost predicate SortedHits(hits: seq<Cut>) {
    forall i, j :: 0 <= i < j < |hits| ==> Before(hits[i], hits[j])
  }

  method Insert(hits: seq<Cut>, h: Cut) returns (r: seq<Cut>)
    requires SortedHits(hits)
    ensures SortedHits(r) && forall x :: x in r <==> x in hits || x == h
  {
    var i := |hits|;
    while i > 0 && !Before(hits[i - 1], h)
      invariant 0 <= i <= |hits| && forall j :: i <= j < |hits| ==> Before(h, hits[j])
    {
      i := i - 1;
    }
    r := hits[..i] + [h] + hits[i..];
  }

  /** Every occurrence of every listed phrase, sorted. */
  method FindHits(text: string) returns (hits: seq<Cut>)
    ensures SortedHits(hits) && forall h :: h in hits <==> IsHit(text, h)
  {
    hide OccursAt, Borderless, Isolated, Plain, PHRASES, HitBefore, SortedHits, Reached;
    NoHitBefore(text);
    assert SortedHits([]) by { NoHitSorted(); }
    hits := [];
    for n := 0 to |PHRASES|
      invariant SortedHits(hits) && forall h :: h in hits <==> HitBefore(text, n, h)
    {
      PhrasesPlain(n);
      PhraseLength(n);
      var starts := MatchIndices(text, PHRASES[n]);
      hits := AddHits(hits, starts, |PHRASES[n]|);
      forall i: nat ensures i in starts <==> OccursAt(text, PHRASES[n], i) {
        AllFound(text, PHRASES[n], starts, i);
      }
      forall h { HitOneMore(text, n, h); }
    }
    forall h { AllHits(text, h); }
  }

  method AddHits(hits: seq<Cut>, starts: seq<nat>, width: nat) returns (r: seq<Cut>)
    requires SortedHits(hits)
    ensures SortedHits(r) && forall h :: h in r <==> h in hits || (h.0 in starts && h.1 == h.0 + width)
  {
    hide SortedHits;
    r := hits;
    for k := 0 to |starts|
      invariant SortedHits(r) && forall h :: h in r <==> h in hits || (h.0 in starts[..k] && h.1 == h.0 + width)
    {
      assert starts[..k + 1] == starts[..k] + [starts[k]];
      r := Insert(r, (starts[k], starts[k] + width));
    }
    assert starts[..|starts|] == starts;
  }

  ghost predicate HitBefore(text: string, m: nat, h: Cut) {
    exists n :: 0 <= n < m && n < |PHRASES| && OccursAt(text, PHRASES[n], h.0) && h.1 == h.0 + |PHRASES[n]|
  }

  lemma NoHitBefore(text: string)
    ensures forall h :: !HitBefore(text, 0, h)
  {
  }

  lemma NoHitSorted()
    ensures SortedHits([])
  {
  }

  lemma AllHits(text: string, h: Cut)
    ensures HitBefore(text, |PHRASES|, h) <==> IsHit(text, h)
  {
    hide OccursAt, PHRASES;
  }

  lemma HitOneMore(text: string, m: nat, h: Cut)
    requires m < |PHRASES|
    ensures HitBefore(text, m + 1, h)
      <==> HitBefore(text, m, h) || (OccursAt(text, PHRASES[m], h.0) && h.1 == h.0 + |PHRASES[m]|)
  {
    hide OccursAt, PHRASES;
  }

  lemma PhraseLength(n: nat)
    requires n < |PHRASES|
    ensures PHRASES[n] != ""
  {
    hide PHRASES;
    PhrasesPlain(n);
  }

  /** For a borderless phrase the non-overlapping scan misses nothing. */
  lemma AllFound(text: string, p: string, starts: seq<nat>, i: nat)
    requires Borderless(p) && p != ""
    requires forall k :: 0 <= k < |starts| ==> OccursAt(text, p, starts[k])
    requires forall j: nat :: OccursAt(text, p, j) ==> Reached(starts, |p|, j)
    ensures i in starts <==> OccursAt(text, p, i)
  {
    hide Borderless, OccursAt;
    if OccursAt(text, p, i) {
      var k :| 0 <= k < |starts| && starts[k] <= i < starts[k] + |p|;
      NoOverlap(text, p, i, starts[k]);
    }
  }

  /** Each cut is a hit, cuts do not overlap, and every hit starts inside a cut. */
  ghost predicate Covering(text: string, hits: seq<Cut>, n: nat, cuts: seq<Cut>)
    requires n <= |hits|
  {
    Ordered(cuts, |text|) && Among(cuts, hits, n) && forall k :: 0 <= k < n ==> !Uncut(cuts, hits[k].0)
  }

  ghost predicate Among(cuts: seq<Cut>, hits: seq<Cut>, n: nat) {
    forall k :: 0 <= k < |cuts| ==> exists i :: 0 <= i < n && i < |hits| && hits[i] == cuts[k]
  }

  lemma AmongMore(cuts: seq<Cut>, hits: seq<Cut>, n: nat)
    requires Among(cuts, hits, n) && n < |hits|
    ensures Among(cuts, hits, n + 1) && Among(cuts + [hits[n]], hits, n + 1)
  {
    forall k | 0 <= k < |cuts| ensures exists i :: 0 <= i < n + 1 && hits[i] == cuts[k] {
      var i :| 0 <= i < n && i < |hits| && hits[i] == cuts[k];
    }
    forall k | 0 <= k < |cuts + [hits[n]]| ensures exists i :: 0 <= i < n + 1 && hits[i] == (cuts + [hits[n]])[k] {
      if k == |cuts| {
        assert hits[n] == (cuts + [hits[n]])[k];
      }
    }
  }

  lemma HitFits(text: string, h: Cut)
    requires IsHit(text, h)
    ensures h.0 < h.1 <= |text|
  {
    hide PHRASES;
    var n :| 0 <= n < |PHRASES| && OccursAt(text, PHRASES[n], h.0) && h.1 == h.0 + |PHRASES[n]|;
    PhraseLength(n);
  }

  lemma UncutMore(cuts: seq<Cut>, h: Cut, i: nat)
    ensures Uncut(cuts + [h], i) <==> Uncut(cuts, i) && !(h.0 <= i < h.1)
  {
    if Uncut(cuts + [h], i) {
      forall k | 0 <= k < |cuts| ensures !(cuts[k].0 <= i < cuts[k].1) {
        assert (cuts + [h])[k] == cuts[k];
      }
      assert (cuts + [h])[|cuts|] == h;
    }
  }

  /** A hit that starts at or after the last cut becomes the next one; an overlapping hit already starts inside it. */
  lemma CoverOneMore(text: string, hits: seq<Cut>, n: nat, cuts: seq<Cut>)
    requires n < |hits| && SortedHits(hits) && (forall h :: h in hits <==> IsHit(text, h))
    requires Covering(text, hits, n, cuts)
    ensures Covering(text, hits, n + 1, if hits[n].0 < End(cuts) then cuts else cuts + [hits[n]])
  {
    hide IsHit, Uncut, Ordered, Among, SortedHits;
    var h := hits[n];
    assert h in hits;
    HitFits(text, h);
    AmongMore(cuts, hits, n);
    if h.0 < End(cuts) {
      InsideLast(hits, n, cuts);
    } else {
      OrderedMore(cuts, h, |text|);
      forall i: nat { UncutMore(cuts, h, i); }
    }
  }

  lemma InsideLast(hits: seq<Cut>, n: nat, cuts: seq<Cut>)
    requires n < |hits| && SortedHits(hits) && cuts != [] && Among(cuts, hits, n) && hits[n].0 < End(cuts)
    ensures !Uncut(cuts, hits[n].0)
  {
    var i :| 0 <= i < n && hits[i] == cuts[|cuts| - 1];
    assert Before(hits[i], hits[n]);
  }

  lemma OrderedMore(cuts: seq<Cut>, h: Cut, n: nat)
    requires Ordered(cuts, n) && End(cuts) <= h.0 < h.1 <= n
    ensures Ordered(cuts + [h], n)
  {
    var more := cuts + [h];
    forall k | 0 <= k < |more| - 1 ensures more[k].1 <= more[k + 1].0 {
      if k < |cuts| - 1 {
        assert cuts[k].1 <= cuts[k + 1].0;
      }
    }
  }

  /**
   * Replaces listed phrases. The output is the text with the cuts replaced, every cut is a listed phrase,
   * no listed phrase is left in any letter case, and a text without one comes back unchanged.
   */
  method Sanitize(text: string) returns (out: string, ghost cuts: seq<Cut>)
    ensures Ordered(cuts, |text|) && out == Spliced(text, REPLACEMENT, cuts)
    ensures forall k :: 0 <= k < |cuts| ==> IsHit(text, cuts[k])
    ensures Clean(out)
    ensures Clean(text) ==> out == text
  {
    hide IsHit, Uncut, SortedHits, PHRASES, OccursAt, REPLACEMENT, Clean;
    var hits := FindHits(text);
    if hits == [] {
      out, cuts := text, [];
      NoHits(text, hits);
      assert Upto(text, REPLACEMENT, []) + text[0..] == text;
      return;
    }
    out, cuts := "", [];
    var cursor := 0;
    for n := 0 to |hits|
      invariant Covering(text, hits, n, cuts) && cursor == End(cuts)
      invariant out == Upto(text, REPLACEMENT, cuts)
    {
      CoverOneMore(text, hits, n, cuts);
      var start, end := hits[n].0, hits[n].1;
      assert hits[n] in hits;
      HitFits(text, hits[n]);
      if start < cursor {
        continue;
      }
      out := out + text[cursor..start] + REPLACEMENT;
      assert (cuts + [hits[n]])[..|cuts|] == cuts;
      cuts := cuts + [hits[n]];
      cursor := end;
    }
    EndInside(cuts, |text|);
    out := out + text[cursor..];
    forall k | 0 <= k < |cuts| ensures IsHit(text, cuts[k]) {
      var i :| 0 <= i < |hits| && hits[i] == cuts[k];
      assert cuts[k] in hits;
    }
    AllClean(text, hits, cuts);
    SomeHit(text, hits);
  }

  lemma NoHits(text: string, hits: seq<Cut>)
    requires hits == [] && forall h :: h in hits <==> IsHit(text, h)
    ensures Clean(text)
  {
    hide OccursAt, PHRASES;
    forall n, i: nat | 0 <= n < |PHRASES| ensures !OccursAt(text, PHRASES[n], i) {
      assert !IsHit(text, (i, i + |PHRASES[n]|));
    }
  }

  lemma SomeHit(text: string, hits: seq<Cut>)
    requires hits != [] && forall h :: h in hits <==> IsHit(text, h)
    ensures !Clean(text)
  {
    hide OccursAt, PHRASES;
    assert hits[0] in hits;
    assert IsHit(text, hits[0]);
  }

  lemma AllClean(text: string, hits: seq<Cut>, cuts: seq<Cut>)
    requires (forall h :: h in hits <==> IsHit(text, h)) && Covering(text, hits, |hits|, cuts)
    ensures Clean(Spliced(text, REPLACEMENT, cuts))
  {
    hide OccursAt, PHRASES, Spliced, Uncut, Ordered, Isolated, Plain, Borderless;
    assert REPLACEMENT != "";
    forall n, i: nat | 0 <= n < |PHRASES| ensures !OccursAt(Spliced(text, REPLACEMENT, cuts), PHRASES[n], i) {
      PhrasesPlain(n);
      PhraseLength(n);
      forall j: nat | OccursAt(text, PHRASES[n], j) ensures !Uncut(cuts, j) {
        var h := (j, j + |PHRASES[n]|);
        assert IsHit(text, h);
        var k :| 0 <= k < |hits| && hits[k] == h;
      }
      NothingLeft(text, REPLACEMENT, cuts, PHRASES[n], i);
    }
  }

  /** A second pass returns its input. */
  method SanitizeTwice(text: string) returns (once: string, twice: string)
    ensures twice == once && Clean(once)
  {
    ghost var cuts, cuts';
    once, cuts := Sanitize(text);
    twice, cuts' := Sanitize(once);
  }
}
