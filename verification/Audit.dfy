/** The hash-chained audit log: appending, verifying, and what tampering verification catches. */
module Audit {
  import opened Text
  import opened Timestamps

  /** A row of the audit table. `filesText` is the stored JSON text of the accessed files. */
  datatype Row = Row(
    entrySeq: nat, prev: string, timestamp: string, session: string, trace: Option<string>, tool: string,
    digest: string, status: string, filesText: string, redacted: nat, hash: string, version: int,
    detail: Option<string>, detailSig: Option<string>)

  /** What a caller asks to record; the clock's reading comes with it. */
  datatype Call = Call(
    timestamp: string, session: string, trace: Option<string>, tool: string, argsText: string, status: string,
    filesText: string, redacted: nat, detail: Option<string>)

  const GENESIS := "0000000000000000000000000000000000000000000000000000000000000000"
  const CHAIN_VERSION := 2

  type Hash = string -> string

  // ------------------------------------------------------------------ the chain

  /** The fields a row's hash covers, in order: three more from version 2 on. */
  function Parts(r: Row): seq<string> {
    [r.prev, r.timestamp, r.session, r.tool, r.digest]
    + if r.version == 1 then [] else [r.status, r.filesText, Digits(r.redacted)]
  }

  function Concat(parts: seq<string>): string {
    if parts == [] then "" else parts[0] + Concat(parts[1..])
  }

  /** The text a row's hash is taken of: the fields one after another, with no separators. */
  function Input(r: Row): string {
    Concat(Parts(r))
  }

  function DetailSig(sha: Hash, hash: string, detail: string): string {
    sha(hash + detail)
  }

  predicate DetailOk(sha: Hash, r: Row) {
    match (r.detail, r.detailSig)
    case (None, None) => true
    case (Some(d), Some(s)) => s == DetailSig(sha, r.hash, d)
    case _ => false
  }

  function Before(rows: seq<Row>): string {
    if rows == [] then GENESIS else rows[|rows| - 1].hash
  }

  /** The row chains onto `prev` and carries the hash of its own text. */
  ghost predicate LinkOk(sha: Hash, prev: string, r: Row) {
    r.prev == prev && sha(Input(r)) == r.hash
  }

  /** The chain as binaries without error details check it: previous hash and entry hash of every row. */
  ghost predicate OldVerifies(sha: Hash, rows: seq<Row>) {
    forall i :: 0 <= i < |rows| ==> LinkOk(sha, Before(rows[..i]), rows[i])
  }

  ghost predicate Numbered(rows: seq<Row>) {
    forall i :: 0 <= i < |rows| ==> rows[i].entrySeq == i
  }

  ghost predicate DetailsSigned(sha: Hash, rows: seq<Row>) {
    forall i :: 0 <= i < |rows| ==> DetailOk(sha, rows[i])
  }

  ghost predicate Verifies(sha: Hash, rows: seq<Row>) {
    Numbered(rows) && OldVerifies(sha, rows) && DetailsSigned(sha, rows)
  }

  // ------------------------------------------------------------------ verification

  datatype Verdict = Verified | BrokenChain(entrySeq: nat, expected: string, found: string)

  /** One row against the hash its predecessor left. */
  function CheckRow(sha: Hash, index: nat, expectedPrev: string, r: Row): Verdict {
    if r.entrySeq != index then BrokenChain(r.entrySeq, "seq " + Digits(index), "seq " + Digits(r.entrySeq))
    else if r.prev != expectedPrev then BrokenChain(r.entrySeq, expectedPrev, r.prev)
    else if sha(Input(r)) != r.hash then BrokenChain(r.entrySeq, sha(Input(r)), r.hash)
    else
      match (r.detail, r.detailSig)
      case (None, None) => Verified
      case (Some(d), Some(s)) =>
        if s == DetailSig(sha, r.hash, d) then Verified
        else BrokenChain(r.entrySeq, "error_detail_sig " + DetailSig(sha, r.hash, d), "error_detail_sig " + s)
      case (Some(_), None) => BrokenChain(r.entrySeq, "signed error_detail", "unsigned error_detail")
      case (None, Some(_)) => BrokenChain(r.entrySeq, "no error_detail_sig", "error_detail_sig without error_detail")
  }

  lemma CheckMeans(sha: Hash, index: nat, prev: string, r: Row)
    ensures CheckRow(sha, index, prev, r).Verified? <==> r.entrySeq == index && LinkOk(sha, prev, r) && DetailOk(sha, r)
  {
    hide Input, DetailSig;
  }

  /** Dropping rows from the end is what verification cannot see: every prefix of an accepted table is accepted. */
  lemma PrefixVerifies(sha: Hash, rows: seq<Row>, n: nat)
    requires n <= |rows| && Verifies(sha, rows)
    ensures Verifies(sha, rows[..n])
  {
    hide LinkOk, DetailOk, Before;
    forall k | 0 <= k < n ensures rows[..n][..k] == rows[..k] {}
  }

  /** A table verifies when the rows before its last do and the last checks out against them. */
  lemma CheckedPrefix(sha: Hash, rows: seq<Row>, i: nat)
    requires i < |rows| && Verifies(sha, rows[..i])
    ensures CheckRow(sha, i, Before(rows[..i]), rows[i]).Verified? <==> Verifies(sha, rows[..i + 1])
  {
    hide LinkOk, DetailOk, Before, CheckRow;
    CheckMeans(sha, i, Before(rows[..i]), rows[i]);
    var more := rows[..i + 1];
    assert more[i] == rows[i] && more[..i] == rows[..i];
    forall k | 0 <= k < i ensures more[..k] == rows[..i][..k] && more[k] == rows[..i][k] {}
  }

  /** Accepts exactly the verifying tables, and otherwise reports the first row that breaks the chain. */
  method VerifyDb(sha: Hash, rows: seq<Row>) returns (v: Verdict)
    ensures v.Verified? <==> Verifies(sha, rows)
    ensures v.BrokenChain? ==>
      exists k ::
        0 <= k < |rows| && rows[k].entrySeq == v.entrySeq && Verifies(sha, rows[..k]) && !Verifies(sha, rows[..k + 1])
  {
    hide Verifies, Input;
    var expectedPrev := GENESIS;
    assert Verifies(sha, rows[..0]) by { EmptyVerifies(sha, rows[..0]); }
    for i := 0 to |rows|
      invariant expectedPrev == Before(rows[..i]) && Verifies(sha, rows[..i])
    {
      var check := CheckRow(sha, i, expectedPrev, rows[i]);
      CheckedPrefix(sha, rows, i);
      if check.BrokenChain? {
        if Verifies(sha, rows) {
          PrefixVerifies(sha, rows, i + 1);
        }
        return check;
      }
      expectedPrev := rows[i].hash;
    }
    assert rows[..|rows|] == rows;
    return Verified;
  }

  lemma EmptyVerifies(sha: Hash, rows: seq<Row>)
    requires rows == []
    ensures Verifies(sha, rows)
  {
  }

  // ------------------------------------------------------------------ appending

  function NewRow(sha: Hash, tail: (nat, string), c: Call): Row {
    var bare := Row(
      tail.0, tail.1, c.timestamp, c.session, c.trace, c.tool, sha(c.argsText), c.status, c.filesText, c.redacted, "",
        CHAIN_VERSION, None, None);
    var hash := sha(Input(bare));
    var sig := if c.detail.Some? then Some(DetailSig(sha, hash, c.detail.value)) else None;
    bare.(hash := hash, detail := c.detail, detailSig := sig)
  }

  /** The next number and the hash to chain onto, as the committed tail gives them. */
  function TailOf(rows: seq<Row>): (nat, string) {
    if rows == [] then (0, GENESIS) else (rows[|rows| - 1].entrySeq + 1, rows[|rows| - 1].hash)
  }

  /** Chaining onto the committed tail keeps any accepted chain accepted, whatever versions its rows carry. */
  lemma AppendVerifies(sha: Hash, rows: seq<Row>, c: Call)
    requires Verifies(sha, rows)
    ensures Verifies(sha, rows + [NewRow(sha, TailOf(rows), c)])
    ensures NewRow(sha, TailOf(rows), c).entrySeq == |rows|
  {
    hide Verifies, NewRow, CheckRow;
    var r := NewRow(sha, TailOf(rows), c);
    var all := rows + [r];
    assert all[..|rows|] == rows && all[..|rows| + 1] == all;
    TailNumber(sha, rows);
    NewRowChecks(sha, |rows|, Before(rows), c);
    CheckedPrefix(sha, all, |rows|);
  }

  lemma NewRowChecks(sha: Hash, index: nat, prev: string, c: Call)
    ensures
      var r := NewRow(sha, (index, prev), c);
      CheckRow(sha, index, prev, r).Verified? && r.entrySeq == index
  {
    hide Concat;
    var r := NewRow(sha, (index, prev), c);
    assert Parts(r) == Parts(r.(hash := "", detail := None, detailSig := None));
  }

  lemma TailNumber(sha: Hash, rows: seq<Row>)
    requires Verifies(sha, rows)
    ensures TailOf(rows) == (|rows|, Before(rows))
  {
  }

  class Database {
    const sha: Hash
    var rows: seq<Row>

    constructor (sha: Hash)
      ensures this.sha == sha && rows == []
    {
      this.sha := sha;
      rows := [];
    }

    /** One committed transaction: reads the committed tail and inserts the next row. */
    method RecordEntry(c: Call) returns (r: Row)
      modifies this
      ensures rows == old(rows) + [r] && r == NewRow(sha, TailOf(old(rows)), c)
      ensures Verifies(sha, old(rows)) ==> Verifies(sha, rows) && r.entrySeq == |old(rows)|
    {
      if Verifies(sha, rows) {
        AppendVerifies(sha, rows, c);
      }
      hide Verifies, Input;
      var tail := if rows == [] then (0, GENESIS) else (rows[|rows| - 1].entrySeq + 1, rows[|rows| - 1].hash);
      var digest := sha(c.argsText);
      var bare := Row(tail.0, tail.1, c.timestamp, c.session, c.trace, c.tool, digest, c.status, c.filesText,
        c.redacted, "", CHAIN_VERSION, None, None);
      var hash := sha(Input(bare));
      var sig := if c.detail.Some? then Some(DetailSig(sha, hash, c.detail.value)) else None;
      r := bare.(hash := hash, detail := c.detail, detailSig := sig);
      rows := rows + [r];
    }
  }

  // ------------------------------------------------------------------ writers in several processes

  /** One database and the process holding its write lock, with the tail that process has read. */
  datatype Shared = Shared(rows: seq<Row>, holder: Option<nat>, read: (nat, string))

  datatype Step = Begin(writer: nat) | Commit(writer: nat, call: Call) | Rollback(writer: nat)

  /** `BEGIN IMMEDIATE` waits for the lock and then reads the tail; a commit inserts; either end releases the lock. */
  predicate Enabled(s: Shared, step: Step) {
    match step
    case Begin(w) => s.holder.None?
    case Commit(w, c) => s.holder == Some(w)
    case Rollback(w) => s.holder == Some(w)
  }

  function After(sha: Hash, s: Shared, step: Step): Shared
    requires Enabled(s, step)
  {
    match step
    case Begin(w) => Shared(s.rows, Some(w), TailOf(s.rows))
    case Commit(w, c) => Shared(s.rows + [NewRow(sha, s.read, c)], None, s.read)
    case Rollback(w) => s.(holder := None)
  }

  ghost predicate Run(sha: Hash, states: seq<Shared>, steps: seq<Step>) {
    && |states| == |steps| + 1
    && forall i :: 0 <= i < |steps| ==> Enabled(states[i], steps[i]) && states[i + 1] == After(sha, states[i], steps[i])
  }

  ghost predicate Chained(sha: Hash, s: Shared) {
    Verifies(sha, s.rows) && (s.holder.Some? ==> s.read == TailOf(s.rows))
  }

  lemma StepChained(sha: Hash, s: Shared, step: Step)
    requires Chained(sha, s) && Enabled(s, step)
    ensures Chained(sha, After(sha, s, step)) && s.rows <= After(sha, s, step).rows
  {
    hide Verifies, NewRow;
    if step.Commit? {
      AppendVerifies(sha, s.rows, step.call);
    }
  }

  /** Whatever the interleaving of writers, the table verifies and only grows after every step. */
  lemma {:induction false} EveryRunVerifies(sha: Hash, states: seq<Shared>, steps: seq<Step>, n: nat)
    requires Run(sha, states, steps) && n < |states|
    requires Verifies(sha, states[0].rows) && states[0].holder.None?
    ensures Chained(sha, states[n]) && states[0].rows <= states[n].rows && Numbered(states[n].rows)
  {
    if n > 0 {
      EveryRunVerifies(sha, states, steps, n - 1);
      assert states[n - 1 + 1] == After(sha, states[n - 1], steps[n - 1]);
      StepChained(sha, states[n - 1], steps[n - 1]);
    }
  }

  // ------------------------------------------------------------------ the older verifier

  /** The table without error details. */
  function Stripped(rows: seq<Row>): (r: seq<Row>)
    ensures |r| == |rows| && forall i :: 0 <= i < |r| ==> r[i] == rows[i].(detail := None, detailSig := None)
  {
    if rows == [] then [] else Stripped(rows[..|rows| - 1]) + [rows[|rows| - 1].(detail := None, detailSig := None)]
  }

  /**
   * What the current verifier accepts, the older one accepts. Dropping every error detail together with its signature
   * is what the current verifier cannot see: it accepts the stripped table exactly when the older one accepts this one.
   */
  lemma {:induction false} OlderVerifier(sha: Hash, rows: seq<Row>)
    ensures Verifies(sha, rows) ==> OldVerifies(sha, rows)
    ensures Verifies(sha, Stripped(rows)) <==> OldVerifies(sha, rows) && Numbered(rows)
  {
    hide Numbered, OldVerifies, DetailsSigned;
    StrippedChain(sha, rows);
  }

  lemma {:induction false} StrippedChain(sha: Hash, rows: seq<Row>)
    ensures OldVerifies(sha, Stripped(rows)) <==> OldVerifies(sha, rows)
    ensures Numbered(Stripped(rows)) <==> Numbered(rows)
    ensures DetailsSigned(sha, Stripped(rows))
  {
    hide Stripped, LinkOk, Before;
    var bare := Stripped(rows);
    forall i | 0 <= i < |rows|
      ensures LinkOk(sha, Before(bare[..i]), bare[i]) == LinkOk(sha, Before(rows[..i]), rows[i]) {
      StrippedLink(sha, rows, i);
    }
    assert forall i :: 0 <= i < |bare| ==> bare[i].entrySeq == rows[i].entrySeq;
  }

  lemma StrippedInput(r: Row)
    ensures Input(r.(detail := None, detailSig := None)) == Input(r)
  {
  }

  lemma {:induction false} StrippedLink(sha: Hash, rows: seq<Row>, i: nat)
    requires i < |rows|
    ensures LinkOk(sha, Before(Stripped(rows)[..i]), Stripped(rows)[i]) == LinkOk(sha, Before(rows[..i]), rows[i])
  {
    hide Stripped;
    var bare := Stripped(rows);
    StrippedInput(rows[i]);
    hide Input;
    if i > 0 {
      assert bare[..i][i - 1] == bare[i - 1] && rows[..i][i - 1] == rows[i - 1];
    }
  }

  // ------------------------------------------------------------------ tampering

  ghost predicate Width64(sha: Hash) {
    forall x :: |sha(x)| == 64
  }

  ghost predicate Collide(sha: Hash, x: string, y: string) {
    x != y && sha(x) == sha(y)
  }

  lemma PrevWidth(sha: Hash, rows: seq<Row>, i: nat)
    requires Width64(sha) && OldVerifies(sha, rows) && i < |rows|
    ensures |rows[i].prev| == 64
  {
    hide Input;
    assert LinkOk(sha, Before(rows[..i]), rows[i]);
    if i > 0 {
      assert LinkOk(sha, Before(rows[..i - 1]), rows[i - 1]);
    }
  }

  lemma PrevFirst(r: Row)
    ensures r.prev <= Input(r)
  {
  }

  ghost predicate SameRow(a: Row, b: Row) {
    a.prev == b.prev && a.hash == b.hash && Input(a) == Input(b)
  }

  /**
   * Rows with the same hash were hashed from the same text and chain onto the same hash, unless their texts collide.
   */
  lemma SameHashSameRow(sha: Hash, a: seq<Row>, b: seq<Row>, i: nat)
    requires Width64(sha) && OldVerifies(sha, a) && OldVerifies(sha, b) && i < |a| && i < |b| && a[i].hash == b[i].hash
    ensures SameRow(a[i], b[i]) || Collide(sha, Input(a[i]), Input(b[i]))
  {
    PrevWidth(sha, a, i);
    PrevWidth(sha, b, i);
    PrevFirst(a[i]);
    PrevFirst(b[i]);
    hide Input;
    assert LinkOk(sha, Before(a[..i]), a[i]) && LinkOk(sha, Before(b[..i]), b[i]);
  }

  ghost predicate SomeCollision(sha: Hash, a: seq<Row>, b: seq<Row>) {
    exists i :: 0 <= i < |a| && i < |b| && Collide(sha, Input(a[i]), Input(b[i]))
  }

  /**
   * Two tables of the same length that both verify and end in the same entry hash agree at every row on previous hash,
   * entry hash and hashed text, or exhibit a collision of the hash between two rows' texts.
   */
  lemma {:induction false} SameTailSameChain(sha: Hash, a: seq<Row>, b: seq<Row>, i: nat)
    requires Width64(sha) && OldVerifies(sha, a) && OldVerifies(sha, b) && |a| == |b| && i < |a|
    requires a[|a| - 1].hash == b[|b| - 1].hash
    ensures SameRow(a[i], b[i]) || SomeCollision(sha, a, b)
    decreases |a| - i
  {
    hide Input, SameRow, OldVerifies, Collide, Width64;
    if i == |a| - 1 {
      SameHashSameRow(sha, a, b, i);
    } else {
      SameTailSameChain(sha, a, b, i + 1);
      if !SomeCollision(sha, a, b) {
        SamePrev(sha, a, b, i);
        SameHashSameRow(sha, a, b, i);
      }
    }
  }

  lemma SamePrev(sha: Hash, a: seq<Row>, b: seq<Row>, i: nat)
    requires OldVerifies(sha, a) && OldVerifies(sha, b) && i + 1 < |a| && i + 1 < |b| && SameRow(a[i + 1], b[i + 1])
    ensures a[i].hash == b[i].hash
  {
    hide Input;
    assert LinkOk(sha, Before(a[..i + 1]), a[i + 1]) && LinkOk(sha, Before(b[..i + 1]), b[i + 1]);
  }

  /** The fields of a row the hash is taken of; `status` and the two after it count from version 2 on. */
  datatype Field = Prev | Timestamp | Session | Tool | Digest | Status | FilesText | Redacted

  predicate Covered(r: Row, f: Field) {
    f.Status? || f.FilesText? || f.Redacted? ==> r.version != 1
  }

  /** `b` is `a` with exactly the one field changed. */
  predicate ChangedOnly(f: Field, a: Row, b: Row) {
    a != b &&
    match f
    case Prev => b == a.(prev := b.prev)
    case Timestamp => b == a.(timestamp := b.timestamp)
    case Session => b == a.(session := b.session)
    case Tool => b == a.(tool := b.tool)
    case Digest => b == a.(digest := b.digest)
    case Status => b == a.(status := b.status)
    case FilesText => b == a.(filesText := b.filesText)
    case Redacted => b == a.(redacted := b.redacted)
  }

  lemma Between(a: string, x: string, y: string, b: string)
    requires x != y
    ensures a + x + b != a + y + b
  {
    assert x == (a + x + b)[|a|..|a + x + b| - |b|];
    assert y == (a + y + b)[|a|..|a + y + b| - |b|];
  }

  /** Changing one part changes the joined text. */
  lemma {:induction false} OnePartChangesText(parts: seq<string>, i: nat, y: string)
    requires i < |parts| && parts[i] != y
    ensures Concat(parts[i := y]) != Concat(parts)
    decreases i
  {
    var changed := parts[i := y];
    if i == 0 {
      assert changed[1..] == parts[1..];
      Between("", parts[0], y, Concat(parts[1..]));
      assert "" + parts[0] == parts[0] && "" + y == y;
    } else {
      assert changed[1..] == parts[1..][i - 1 := y];
      OnePartChangesText(parts[1..], i - 1, y);
      SameHead(parts[0], Concat(changed[1..]), Concat(parts[1..]));
    }
  }

  lemma SameHead(a: string, x: string, y: string)
    requires x != y
    ensures a + x != a + y
  {
    assert x == (a + x)[|a|..] && y == (a + y)[|a|..];
  }

  function PartIndex(f: Field): nat {
    match f
    case Prev => 0
    case Timestamp => 1
    case Session => 2
    case Tool => 3
    case Digest => 4
    case Status => 5
    case FilesText => 6
    case Redacted => 7
  }

  /** Changing one covered field changes the hashed text, although fields are joined without separators. */
  lemma OneFieldChangesInput(f: Field, a: Row, b: Row)
    requires ChangedOnly(f, a, b) && Covered(a, f)
    ensures Input(a) != Input(b)
  {
    hide Digits, Concat;
    DigitsValue(a.redacted);
    DigitsValue(b.redacted);
    var i := PartIndex(f);
    assert Parts(b) == Parts(a)[i := Parts(b)[i]];
    OnePartChangesText(Parts(a), i, Parts(b)[i]);
  }

  /** Changing exactly one covered field of one row of an accepted table is rejected, short of a collision. */
  lemma FieldTamperingFails(sha: Hash, rows: seq<Row>, i: nat, f: Field, b: Row)
    requires Verifies(sha, rows) && i < |rows| && ChangedOnly(f, rows[i], b) && Covered(rows[i], f)
    ensures !OldVerifies(sha, rows[i := b]) || Collide(sha, Input(rows[i]), Input(b))
  {
    hide Input, Before;
    OneFieldChangesInput(f, rows[i], b);
    assert LinkOk(sha, Before(rows[..i]), rows[i]);
    var forged := rows[i := b];
    if OldVerifies(sha, forged) {
      assert LinkOk(sha, Before(forged[..i]), forged[i]);
    }
  }

  /** Changing an error detail under its old signature is rejected, short of a collision. */
  lemma DetailTamperingFails(sha: Hash, rows: seq<Row>, i: nat, d: string)
    requires Verifies(sha, rows) && i < |rows| && rows[i].detail.Some? && rows[i].detail.value != d
    ensures !Verifies(sha, rows[i := rows[i].(detail := Some(d))])
      || Collide(sha, rows[i].hash + rows[i].detail.value, rows[i].hash + d)
  {
    hide Input, Before;
    var forged := rows[i := rows[i].(detail := Some(d))];
    Between(rows[i].hash, rows[i].detail.value, d, "");
    assert rows[i].hash + d + "" == rows[i].hash + d;
    assert rows[i].hash + rows[i].detail.value + "" == rows[i].hash + rows[i].detail.value;
    assert DetailOk(sha, rows[i]);
    if Verifies(sha, forged) {
      assert DetailOk(sha, forged[i]);
    }
  }

  /** Changing an entry hash alone is rejected, with no assumption on the hash. */
  lemma HashTamperingFails(sha: Hash, rows: seq<Row>, i: nat, h: string)
    requires Verifies(sha, rows) && i < |rows| && h != rows[i].hash
    ensures !OldVerifies(sha, rows[i := rows[i].(hash := h)])
  {
    var forged := rows[i := rows[i].(hash := h)];
    assert Parts(forged[i]) == Parts(rows[i]);
    hide Parts, Concat, Before;
    assert LinkOk(sha, Before(rows[..i]), rows[i]);
    assert !LinkOk(sha, Before(forged[..i]), forged[i]);
  }

  /** Removing any row but the last is rejected, with no assumption on the hash. */
  lemma RemovalFails(sha: Hash, rows: seq<Row>, i: nat)
    requires Verifies(sha, rows) && i + 1 < |rows|
    ensures !Verifies(sha, rows[..i] + rows[i + 1..])
  {
    var rest := rows[..i] + rows[i + 1..];
    assert rest[i] == rows[i + 1];
    assert rows[i + 1].entrySeq == i + 1;
  }

  /** The table without row `i`, the rows after it renumbered. */
  function Excised(rows: seq<Row>, i: nat): (r: seq<Row>)
    requires i < |rows|
    ensures |r| == |rows| - 1
    ensures forall j :: 0 <= j < |r| ==> r[j] == if j < i then rows[j] else rows[j + 1].(entrySeq := j)
  {
    rows[..i] + seq(|rows| - 1 - i, j requires 0 <= j < |rows| - 1 - i => rows[i + 1 + j].(entrySeq := i + j))
  }

  lemma RenumberedInput(r: Row, n: nat)
    ensures Input(r.(entrySeq := n)) == Input(r)
  {
    assert Parts(r.(entrySeq := n)) == Parts(r);
  }

  lemma {:induction false} ExcisedLink(sha: Hash, rows: seq<Row>, i: nat, j: nat)
    requires Verifies(sha, rows) && i + 1 < |rows| && j < |rows| - 1
    ensures LinkOk(sha, Before(Excised(rows, i)[..j]), Excised(rows, i)[j])
      <==> (j == i ==> rows[i].hash == rows[i].prev)
  {
    hide Excised, Input, DetailsSigned, Numbered, Before;
    var r := Excised(rows, i);
    assert LinkOk(sha, Before(rows[..j]), rows[j]) && LinkOk(sha, Before(rows[..j + 1]), rows[j + 1]);
    BeforeAt(rows, j);
    BeforeAt(rows, j + 1);
    BeforeAt(r, j);
    RenumberedInput(rows[j + 1], j);
  }

  lemma BeforeAt(rows: seq<Row>, j: nat)
    requires j <= |rows|
    ensures Before(rows[..j]) == if j == 0 then GENESIS else rows[j - 1].hash
  {
  }

  /**
   * Removing a row and renumbering the rest is accepted if and only if the removed row's hash is the hash it chained
   * onto.
   */
  lemma {:induction false} ExcisionFails(sha: Hash, rows: seq<Row>, i: nat)
    requires Verifies(sha, rows) && i + 1 < |rows|
    ensures Verifies(sha, Excised(rows, i)) <==> rows[i].hash == rows[i].prev
  {
    hide Excised, LinkOk, Before;
    var r := Excised(rows, i);
    forall j | 0 <= j < |r| ensures LinkOk(sha, Before(r[..j]), r[j]) <==> (j == i ==> rows[i].hash == rows[i].prev) {
      ExcisedLink(sha, rows, i, j);
    }
    forall j | 0 <= j < |r| ensures r[j].entrySeq == j && DetailOk(sha, r[j]) {
      assert DetailOk(sha, rows[j]) && DetailOk(sha, rows[j + 1]);
    }
    if OldVerifies(sha, r) {
      assert LinkOk(sha, Before(r[..i]), r[i]);
    }
  }

  // ------------------------------------------------------------------ what a row carries

  /**
   * A recorded row carries the call's own fields, its arguments as a digest, and the hash of all of it after `prev`.
   */
  lemma RowCarriesCall(sha: Hash, tail: (nat, string), c: Call)
    ensures
      var r := NewRow(sha, tail, c);
      && r.entrySeq == tail.0 && r.prev == tail.1 && r.timestamp == c.timestamp && r.session == c.session
      && r.trace == c.trace && r.tool == c.tool && r.digest == sha(c.argsText) && r.status == c.status
      && r.filesText == c.filesText && r.redacted == c.redacted && r.version == 2 && r.detail == c.detail
      && r.hash == sha(tail.1 + c.timestamp + c.session + c.tool + sha(c.argsText) + c.status + c.filesText
                       + Digits(c.redacted))
      && r.detailSig == (if c.detail.Some? then Some(sha(r.hash + c.detail.value)) else None)
  {
    var parts := [tail.1, c.timestamp, c.session, c.tool, sha(c.argsText), c.status, c.filesText, Digits(c.redacted)];
    ConcatEight(parts);
    hide Concat;
    var bare := NewRow(sha, tail, c).(hash := "", detail := None, detailSig := None);
    assert Parts(bare) == parts;
  }

  lemma ConcatEight(p: seq<string>)
    requires |p| == 8
    ensures Concat(p) == p[0] + p[1] + p[2] + p[3] + p[4] + p[5] + p[6] + p[7]
  {
    ConcatFour(p[4..]);
    ConcatTail(p, 3);
    ConcatTail(p, 2);
    ConcatTail(p, 1);
    ConcatTail(p, 0);
    hide Concat;
    assert p[0..] == p;
    var rest := p[4] + p[5] + p[6] + p[7];
    assert Concat(p[4..]) == rest;
    assert Concat(p) == p[0] + (p[1] + (p[2] + (p[3] + rest)));
  }

  lemma ConcatTail(p: seq<string>, i: nat)
    requires i < |p|
    ensures Concat(p[i..]) == p[i] + Concat(p[i + 1..])
  {
    assert p[i..][1..] == p[i + 1..];
  }

  lemma ConcatFour(p: seq<string>)
    requires |p| == 4
    ensures Concat(p) == p[0] + p[1] + p[2] + p[3]
  {
    ConcatTail(p, 3);
    ConcatTail(p, 2);
    ConcatTail(p, 1);
    ConcatTail(p, 0);
    assert p[4..] == [] && p[0..] == p;
    assert Concat(p[4..]) == "";
    assert Concat(p[3..]) == p[3];
  }

  /** A row written before version 2 hashes its first five fields only; the first row chains onto 64 zeros. */
  lemma OldRowText(r: Row)
    ensures r.version == 1 ==> Input(r) == r.prev + r.timestamp + r.session + r.tool + r.digest
    ensures |GENESIS| == 64 && Before([]) == "0000000000000000000000000000000000000000000000000000000000000000"
  {
    var p := [r.prev, r.timestamp, r.session, r.tool, r.digest];
    assert p[1..] == [r.timestamp, r.session, r.tool, r.digest] && p[1..][1..] == [r.session, r.tool, r.digest];
    assert p[1..][1..][1..] == [r.tool, r.digest] && p[1..][1..][1..][1..] == [r.digest];
    assert [r.digest][1..] == [];
    assert Concat([r.digest]) == r.digest;
    assert Concat([r.tool, r.digest]) == r.tool + r.digest;
    assert Concat([r.session, r.tool, r.digest]) == r.session + (r.tool + r.digest);
    assert Concat(p[1..]) == r.timestamp + (r.session + (r.tool + r.digest));
    assert Concat(p) == r.prev + (r.timestamp + (r.session + (r.tool + r.digest)));
    assert r.version == 1 ==> Parts(r) == p;
  }

  /**
   * In an accepted table a detail and its signature come together, and the signature is over the row's hash and the
   * detail.
   */
  lemma DetailsPaired(sha: Hash, rows: seq<Row>, i: nat)
    requires Verifies(sha, rows) && i < |rows|
    ensures rows[i].detail.Some? <==> rows[i].detailSig.Some?
    ensures rows[i].detail.Some? ==> rows[i].detailSig == Some(sha(rows[i].hash + rows[i].detail.value))
  {
    assert DetailOk(sha, rows[i]);
  }
}
