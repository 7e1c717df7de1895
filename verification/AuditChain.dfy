/**
  The hash-chained audit log of `StateDB`: writing, backfilling and verifying it, and what the
  last hash pins down. The hash of an event and its predecessor is a parameter, assumed
  injective; a missing hash and an empty one are the same to the code and are both "".
 */
module AuditChain {

  datatype AuditEvent = AuditEvent(
    createdAt: string, actor: string, action: string,
    objectType: string, objectId: string, details: string)

  datatype Row = Row(event: AuditEvent, prevHash: string, eventHash: string)

  datatype ChainError = PreviousHashMismatch(row: nat) | HashMismatch(row: nat)

  type HashFn = (AuditEvent, string) -> string

  const GENESIS := "GENESIS"

  /** A digest is never empty, never the genesis marker, and determines what was hashed. */
  ghost predicate GoodHash(h: HashFn) {
    && (forall e, p :: h(e, p) != "" && h(e, p) != GENESIS)
    && (forall e, p, e', p' :: h(e, p) == h(e', p') ==> e == e' && p == p')
  }

  /** The hash that the row after the first `n` rows must name. */
  function HeadHash(rows: seq<Row>): string {
    if rows == [] then GENESIS else rows[|rows| - 1].eventHash
  }

  ghost predicate LinkedAt(h: HashFn, rows: seq<Row>, i: nat)
    requires i < |rows|
  {
    var prev := HeadHash(rows[..i]);
    rows[i].prevHash == prev && rows[i].eventHash == h(rows[i].event, prev)
  }

  ghost predicate WellFormed(h: HashFn, rows: seq<Row>) {
    forall i | 0 <= i < |rows| :: LinkedAt(h, rows, i)
  }

  function Events(rows: seq<Row>): seq<AuditEvent> {
    seq(|rows|, i requires 0 <= i < |rows| => rows[i].event)
  }

  // ---------------------------------------------------------------- specification of the walkers

  function Hashed(row: Row, expected: string): string {
    if row.eventHash != "" then row.eventHash else expected
  }

  /** The running previous hash of the verifier after `n` rows. */
  function RunningHash(h: HashFn, rows: seq<Row>, n: nat): string
    requires n <= |rows|
  {
    if n == 0 then GENESIS else Hashed(rows[n - 1], h(rows[n - 1].event, RunningHash(h, rows, n - 1)))
  }

  function RowErrors(h: HashFn, rows: seq<Row>, i: nat): seq<ChainError>
    requires i < |rows|
  {
    var prev := RunningHash(h, rows, i);
    (if rows[i].prevHash != prev then [PreviousHashMismatch(i)] else []) +
    (if rows[i].eventHash != h(rows[i].event, prev) then [HashMismatch(i)] else [])
  }

  function ChainErrors(h: HashFn, rows: seq<Row>, n: nat): seq<ChainError>
    requires n <= |rows|
  {
    if n == 0 then [] else ChainErrors(h, rows, n - 1) + RowErrors(h, rows, n - 1)
  }

  /** Rows with a hash stay; each row without one is linked to the row before it. */
  function Backfilled(h: HashFn, rows: seq<Row>): (filled: seq<Row>)
    ensures |filled| == |rows|
  {
    if rows == [] then []
    else
      var n := |rows| - 1;
      var init := Backfilled(h, rows[..n]);
      var prev := HeadHash(init);
      init + [if rows[n].eventHash != "" then rows[n] else Row(rows[n].event, prev, h(rows[n].event, prev))]
  }

  /** The row names its predecessor's hash, the first one the genesis marker, and has the right one itself. */
  ghost predicate NamesPredecessor(h: HashFn, rows: seq<Row>, i: nat)
    requires i < |rows|
  {
    && (i == 0 ==> rows[i].prevHash == "GENESIS")
    && (i > 0 ==> rows[i].prevHash == rows[i - 1].eventHash)
    && rows[i].eventHash == h(rows[i].event, rows[i].prevHash)
  }

  lemma LinkedAtExactly(h: HashFn, rows: seq<Row>, i: nat)
    requires i < |rows|
    ensures LinkedAt(h, rows, i) <==> NamesPredecessor(h, rows, i)
  {
  }

  /** A table is well-formed exactly if every row names its predecessor. */
  lemma WellFormedExactly(h: HashFn, rows: seq<Row>)
    ensures WellFormed(h, rows) <==> forall i | 0 <= i < |rows| :: NamesPredecessor(h, rows, i)
  {
    forall i | 0 <= i < |rows| ensures LinkedAt(h, rows, i) <==> NamesPredecessor(h, rows, i) {
      LinkedAtExactly(h, rows, i);
    }
  }

  /** The hashes a verifier carries along: the stored one where a row has one, else the one it should have. */
  ghost predicate Carries(h: HashFn, rows: seq<Row>, prevs: seq<string>) {
    && |prevs| == |rows| + 1 && prevs[0] == "GENESIS"
    && forall i | 0 <= i < |rows| ::
         prevs[i + 1] == if rows[i].eventHash != "" then rows[i].eventHash else h(rows[i].event, prevs[i])
  }

  /** Exactly these errors: a row that names another hash than the one carried, a row whose hash is not the event's. */
  ghost predicate Reports(h: HashFn, rows: seq<Row>, prevs: seq<string>, errors: seq<ChainError>)
    requires |prevs| == |rows| + 1
  {
    && (forall i | 0 <= i < |rows| :: PreviousHashMismatch(i) in errors <==> rows[i].prevHash != prevs[i])
    && (forall i | 0 <= i < |rows| :: HashMismatch(i) in errors <==> rows[i].eventHash != h(rows[i].event, prevs[i]))
    && forall e | e in errors :: e.row < |rows|
  }

  lemma {:induction false} ErrorsExactly(h: HashFn, rows: seq<Row>, n: nat, i: nat)
    requires n <= |rows|
    ensures PreviousHashMismatch(i) in ChainErrors(h, rows, n) <==>
            i < n && rows[i].prevHash != RunningHash(h, rows, i)
    ensures HashMismatch(i) in ChainErrors(h, rows, n) <==>
            i < n && rows[i].eventHash != h(rows[i].event, RunningHash(h, rows, i))
  {
    if n > 0 {
      ErrorsExactly(h, rows, n - 1, i);
    }
  }

  ghost function Carried(h: HashFn, rows: seq<Row>): (prevs: seq<string>)
    ensures |prevs| == |rows| + 1 && forall i | 0 <= i <= |rows| :: prevs[i] == RunningHash(h, rows, i)
  {
    seq(|rows| + 1, i requires 0 <= i <= |rows| => RunningHash(h, rows, i))
  }

  lemma CarriedIsCarried(h: HashFn, rows: seq<Row>)
    ensures Carries(h, rows, Carried(h, rows))
  {
    var prevs := Carried(h, rows);
    forall i | 0 <= i < |rows|
      ensures prevs[i + 1] == if rows[i].eventHash != "" then rows[i].eventHash else h(rows[i].event, prevs[i])
    {
      assert prevs[i + 1] == RunningHash(h, rows, i + 1);
    }
  }

  /** What the verifier reports, in terms of the hashes it carries. */
  lemma ReportsExactly(h: HashFn, rows: seq<Row>)
    ensures Reports(h, rows, Carried(h, rows), ChainErrors(h, rows, |rows|))
  {
    var prevs, errors := Carried(h, rows), ChainErrors(h, rows, |rows|);
    forall i | 0 <= i < |rows|
      ensures PreviousHashMismatch(i) in errors <==> rows[i].prevHash != prevs[i]
      ensures HashMismatch(i) in errors <==> rows[i].eventHash != h(rows[i].event, prevs[i])
    {
      ErrorsExactly(h, rows, |rows|, i);
    }
    forall e | e in errors ensures e.row < |rows| {
      ErrorsExactly(h, rows, |rows|, e.row);
      assert e == PreviousHashMismatch(e.row) || e == HashMismatch(e.row);
    }
  }

  // ---------------------------------------------------------------- the table

  class AuditTable {
    const h: HashFn
    var rows: seq<Row>

    constructor (h: HashFn)
      ensures this.h == h && rows == []
    {
      this.h, rows := h, [];
    }

    /** Appends an event linked to the last row. */
    method Audit(event: AuditEvent)
      modifies this
      ensures var prev := if HeadHash(old(rows)) != "" then HeadHash(old(rows)) else GENESIS;
              rows == old(rows) + [Row(event, prev, h(event, prev))]
      ensures GoodHash(h) && WellFormed(h, old(rows)) ==> WellFormed(h, rows)
    {
      var prev := if rows != [] && rows[|rows| - 1].eventHash != "" then rows[|rows| - 1].eventHash else GENESIS;
      ghost var before := rows;
      rows := rows + [Row(event, prev, h(event, prev))];
      if GoodHash(h) && WellFormed(h, before) {
        AppendKeepsChain(h, before, event);
      }
    }

    method BackfillAuditHashes()
      modifies this
      ensures rows == Backfilled(h, old(rows))
    {
      var prev, i := GENESIS, 0;
      while i < |rows|
        invariant i <= |rows| == |old(rows)|
        invariant rows[..i] == Backfilled(h, old(rows)[..i])
        invariant forall k | i <= k < |rows| :: rows[k] == old(rows)[k]
        invariant prev == HeadHash(rows[..i])
      {
        ghost var done := rows[..i];
        assert old(rows)[..i + 1][..i] == old(rows)[..i];
        var expected := h(rows[i].event, prev);
        if rows[i].eventHash == "" {
          rows := rows[i := Row(rows[i].event, prev, expected)];
        }
        prev := rows[i].eventHash;
        assert rows[..i + 1] == done + [rows[i]];
        i := i + 1;
      }
      assert rows[..i] == rows && old(rows)[..i] == old(rows);
    }

    method VerifyAuditChain() returns (ok: bool, errors: seq<ChainError>, ghost prevs: seq<string>)
      ensures errors == ChainErrors(h, rows, |rows|)
      ensures ok <==> errors == []
      ensures ok <==> WellFormed(h, rows)
      ensures Carries(h, rows, prevs) && Reports(h, rows, prevs, errors)
    {
      errors := [];
      var prev, i := GENESIS, 0;
      while i < |rows|
        invariant i <= |rows|
        invariant errors == ChainErrors(h, rows, i)
        invariant prev == RunningHash(h, rows, i)
      {
        var expected := h(rows[i].event, prev);
        if rows[i].prevHash != prev {
          errors := errors + [PreviousHashMismatch(i)];
        }
        if rows[i].eventHash != expected {
          errors := errors + [HashMismatch(i)];
        }
        prev := if rows[i].eventHash != "" then rows[i].eventHash else expected;
        i := i + 1;
      }
      ok := errors == [];
      AcceptsExactlyWellFormed(h, rows);
      prevs := Carried(h, rows);
      CarriedIsCarried(h, rows);
      ReportsExactly(h, rows);
    }
  }

  // ---------------------------------------------------------------- writing

  lemma PrefixLinks(h: HashFn, rows: seq<Row>, more: seq<Row>, i: nat)
    requires i < |rows|
    ensures LinkedAt(h, rows + more, i) == LinkedAt(h, rows, i)
  {
  }

  lemma AppendKeepsChain(h: HashFn, rows: seq<Row>, event: AuditEvent)
    requires GoodHash(h) && WellFormed(h, rows)
    ensures HeadHash(rows) != ""
    ensures WellFormed(h, rows + [Row(event, HeadHash(rows), h(event, HeadHash(rows)))])
  {
    var more := [Row(event, HeadHash(rows), h(event, HeadHash(rows)))];
    if rows != [] {
      assert LinkedAt(h, rows, |rows| - 1);
    }
    forall i | 0 <= i < |rows + more| ensures LinkedAt(h, rows + more, i) {
      if i < |rows| {
        PrefixLinks(h, rows, more, i);
      } else {
        assert (rows + more)[..i] == rows;
      }
    }
  }

  // ---------------------------------------------------------------- verifying

  /** No errors so far exactly when the rows so far are linked; the running hash is then the stored one. */
  lemma {:induction false} NoErrorsMeansLinked(h: HashFn, rows: seq<Row>, n: nat)
    requires n <= |rows|
    ensures ChainErrors(h, rows, n) == [] <==> forall i | 0 <= i < n :: LinkedAt(h, rows, i)
    ensures ChainErrors(h, rows, n) == [] ==> RunningHash(h, rows, n) == HeadHash(rows[..n])
  {
    if n > 0 {
      NoErrorsMeansLinked(h, rows, n - 1);
      if ChainErrors(h, rows, n - 1) == [] {
        assert RowErrors(h, rows, n - 1) == [] <==> LinkedAt(h, rows, n - 1);
        assert ChainErrors(h, rows, n) == RowErrors(h, rows, n - 1);
      }
    }
  }

  /** The verifier reports nothing exactly for the well-formed chains. */
  lemma AcceptsExactlyWellFormed(h: HashFn, rows: seq<Row>)
    ensures ChainErrors(h, rows, |rows|) == [] <==> WellFormed(h, rows)
  {
    NoErrorsMeansLinked(h, rows, |rows|);
  }

  function Forged(rows: seq<Row>, k: nat, event: AuditEvent): seq<Row>
    requires k < |rows|
  {
    rows[k := rows[k].(event := event)]
  }

  /** The stored hashes carry the verifier past a forged row. */
  lemma {:induction false} ForgeryKeepsRunningHash(h: HashFn, rows: seq<Row>, k: nat, event: AuditEvent, n: nat)
    requires GoodHash(h) && WellFormed(h, rows) && k < |rows| && n <= |rows|
    ensures RunningHash(h, Forged(rows, k, event), n) == HeadHash(rows[..n])
  {
    if n > 0 {
      assert LinkedAt(h, rows, n - 1);
      assert Forged(rows, k, event)[n - 1].eventHash == rows[n - 1].eventHash;
    }
  }

  lemma ForgedRowErrors(h: HashFn, rows: seq<Row>, k: nat, event: AuditEvent, i: nat)
    requires GoodHash(h) && WellFormed(h, rows) && k < |rows| && event != rows[k].event && i < |rows|
    ensures RowErrors(h, Forged(rows, k, event), i) == if i == k then [HashMismatch(k)] else []
  {
    ForgeryKeepsRunningHash(h, rows, k, event, i);
    assert LinkedAt(h, rows, i);
  }

  /** The errors of the rows from `m` on. */
  ghost function ErrorsFrom(h: HashFn, rows: seq<Row>, m: nat, n: nat): seq<ChainError>
    requires m <= n <= |rows|
  {
    if m == n then [] else ErrorsFrom(h, rows, m, n - 1) + RowErrors(h, rows, n - 1)
  }

  lemma {:induction false} ErrorsSplit(h: HashFn, rows: seq<Row>, m: nat, n: nat)
    requires m <= n <= |rows|
    ensures ChainErrors(h, rows, n) == ChainErrors(h, rows, m) + ErrorsFrom(h, rows, m, n)
  {
    if m < n {
      ErrorsSplit(h, rows, m, n - 1);
      assert ErrorsFrom(h, rows, m, n) == ErrorsFrom(h, rows, m, n - 1) + RowErrors(h, rows, n - 1);
    }
  }

  ghost predicate Clean(h: HashFn, rows: seq<Row>, m: nat, n: nat)
    requires m <= n <= |rows|
  {
    forall i | m <= i < n :: RowErrors(h, rows, i) == []
  }

  lemma {:induction false} CleanAddsNothing(h: HashFn, rows: seq<Row>, m: nat, n: nat)
    requires m <= n <= |rows| && Clean(h, rows, m, n)
    ensures ErrorsFrom(h, rows, m, n) == []
  {
    if m < n {
      CleanAddsNothing(h, rows, m, n - 1);
    }
  }

  /** Clean rows add no error to those before them. */
  lemma SameErrors(h: HashFn, rows: seq<Row>, m: nat, n: nat)
    requires m <= n <= |rows| && Clean(h, rows, m, n)
    ensures ChainErrors(h, rows, n) == ChainErrors(h, rows, m)
  {
    CleanAddsNothing(h, rows, m, n);
    ErrorsSplit(h, rows, m, n);
  }

  lemma CleanButOne(h: HashFn, rows: seq<Row>, k: nat, errors: seq<ChainError>)
    requires k < |rows| && Clean(h, rows, 0, k) && Clean(h, rows, k + 1, |rows|) && RowErrors(h, rows, k) == errors
    ensures ChainErrors(h, rows, |rows|) == errors
  {
    SameErrors(h, rows, k + 1, |rows|);
    FirstErrors(h, rows, k, errors);
  }

  lemma FirstErrors(h: HashFn, rows: seq<Row>, k: nat, errors: seq<ChainError>)
    requires k < |rows| && Clean(h, rows, 0, k) && RowErrors(h, rows, k) == errors
    ensures ChainErrors(h, rows, k + 1) == errors
  {
    SameErrors(h, rows, 0, k);
    assert ChainErrors(h, rows, k) == [];
    assert ChainErrors(h, rows, k + 1) == [] + errors;
  }

  /** Rewriting the content of row `k` of a good chain yields exactly one error, at row `k`. */
  lemma TamperingIsLocated(h: HashFn, rows: seq<Row>, k: nat, event: AuditEvent)
    requires GoodHash(h) && WellFormed(h, rows) && k < |rows| && event != rows[k].event
    ensures ChainErrors(h, Forged(rows, k, event), |rows|) == [HashMismatch(k)]
  {
    var forged := Forged(rows, k, event);
    forall i | 0 <= i < |rows| && i != k ensures RowErrors(h, forged, i) == [] {
      ForgedRowErrors(h, rows, k, event, i);
    }
    ForgedRowErrors(h, rows, k, event, k);
    CleanButOne(h, forged, k, [HashMismatch(k)]);
  }

  // ---------------------------------------------------------------- the head hash fixes the history

  lemma WellFormedPrefix(h: HashFn, rows: seq<Row>, n: nat)
    requires WellFormed(h, rows) && n <= |rows|
    ensures WellFormed(h, rows[..n])
  {
    forall i | 0 <= i < n ensures LinkedAt(h, rows[..n], i) {
      assert LinkedAt(h, rows, i) && rows[..n][..i] == rows[..i];
    }
  }

  /** Two well-formed chains with the same last hash are the same chain, row for row. */
  lemma {:induction false} HeadFixesHistory(h: HashFn, a: seq<Row>, b: seq<Row>)
    requires GoodHash(h) && WellFormed(h, a) && WellFormed(h, b)
    requires HeadHash(a) == HeadHash(b)
    ensures a == b
  {
    if a != [] {
      assert LinkedAt(h, a, |a| - 1);
    }
    if b != [] {
      assert LinkedAt(h, b, |b| - 1);
    }
    if a != [] && b != [] {
      var a', b' := a[..|a| - 1], b[..|b| - 1];
      WellFormedPrefix(h, a, |a| - 1);
      WellFormedPrefix(h, b, |b| - 1);
      HeadFixesHistory(h, a', b');
      assert a == a' + [a[|a| - 1]] && b == b' + [b[|b| - 1]];
    }
  }

  // ---------------------------------------------------------------- backfilling

  /** Backfilling an unhashed suffix after a well-formed chain completes the chain and keeps every event. */
  lemma {:induction false} BackfillCompletesChain(h: HashFn, rows: seq<Row>, n: nat)
    requires GoodHash(h) && n <= |rows| && WellFormed(h, rows[..n])
    requires forall i | n <= i < |rows| :: rows[i].eventHash == ""
    ensures WellFormed(h, Backfilled(h, rows))
    ensures Backfilled(h, rows)[..n] == rows[..n]
    ensures Events(Backfilled(h, rows)) == Events(rows)
  {
    var m := |rows|;
    if n == m {
      assert rows[..n] == rows;
      BackfillKeepsHashed(h, rows);
    } else {
      var init := rows[..m - 1];
      assert init[..n] == rows[..n];
      BackfillCompletesChain(h, init, n);
      var filled := Backfilled(h, init);
      AppendKeepsChain(h, filled, rows[m - 1].event);
      assert Backfilled(h, rows)[..n] == filled[..n];
      forall i | 0 <= i < m ensures Events(Backfilled(h, rows))[i] == Events(rows)[i] {
        if i < m - 1 {
          assert Events(filled)[i] == Events(init)[i];
        }
      }
    }
  }

  /** A chain whose rows are all hashed is left alone, well-formed or not. */
  lemma {:induction false} BackfillKeepsHashed(h: HashFn, rows: seq<Row>)
    requires (forall i | 0 <= i < |rows| :: rows[i].eventHash != "") || (GoodHash(h) && WellFormed(h, rows))
    ensures Backfilled(h, rows) == rows
  {
    if rows != [] {
      var n := |rows| - 1;
      if GoodHash(h) && WellFormed(h, rows) {
        WellFormedPrefix(h, rows, n);
        assert LinkedAt(h, rows, n);
      }
      BackfillKeepsHashed(h, rows[..n]);
      assert rows == rows[..n] + [rows[n]];
    }
  }

  lemma {:induction false} BackfillHashesEveryRow(h: HashFn, rows: seq<Row>)
    requires GoodHash(h)
    ensures forall i | 0 <= i < |rows| :: Backfilled(h, rows)[i].eventHash != ""
  {
    if rows != [] {
      BackfillHashesEveryRow(h, rows[..|rows| - 1]);
    }
  }

  /** Running the backfill again, on any table whatever, changes nothing more. */
  lemma {:induction false} BackfillIsIdempotent(h: HashFn, rows: seq<Row>)
    requires GoodHash(h)
    ensures Backfilled(h, Backfilled(h, rows)) == Backfilled(h, rows)
  {
    BackfillHashesEveryRow(h, rows);
    BackfillKeepsHashed(h, Backfilled(h, rows));
  }
}
